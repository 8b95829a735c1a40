/**
 The rating services as they run: the review, cancellation and reputation tables and the Redis cards
 are fields that the methods update. Every method is tied to the step functions of Reputation, so
 what is proved there over all runs holds of them.
 */
module RatingService {
  import opened Wrappers
  import opened Calendar
  import opened Reviews
  import opened Cancellations
  import opened Reputation

  /** The tables after the reveal job has dealt with the due reviews in `done`. */
  function Revealing(s: State, now: Time, done: set<ReviewId>): State {
    s.(reviews := map id <- s.reviews :: if id in done then s.reviews[id].(revealedAt := Some(now)) else s.reviews[id],
       rows := map u <- s.rows ::
         if exists id <- done :: id in s.reviews && s.reviews[id].reviewee == u
         then s.rows[u].(computedAt := 0) else s.rows[u])
  }

  function DueOnes(t: Table, now: Time): set<ReviewId> {
    set id <- t | Due(t[id], now)
  }

  lemma RevealOneMore(s: State, now: Time, done: set<ReviewId>, id: ReviewId)
    requires id in s.reviews && id !in done
    ensures
      var mid := Revealing(s, now, done);
      && id in mid.reviews && mid.reviews[id] == s.reviews[id]
      && Revealing(s, now, done + {id})
         == mid.(reviews := mid.reviews[id := mid.reviews[id].(revealedAt := Some(now))],
                 rows := Invalidated(mid.rows, s.reviews[id].reviewee))
  {
  }

  lemma RevealAll(s: State, now: Time)
    ensures Revealing(s, now, DueOnes(s.reviews, now)) == AfterReveal(s, now)
  {
  }

  /** What updateBookingStatus is asked for. */
  datatype StatusChange = StatusChange(booking: BookingId, status: string, visible: string)

  class Service {
    var reviews: Table
    var nextReview: nat
    var likes: set<(ReviewId, UserId)>
    var log: seq<Cancellation>
    var rows: map<UserId, Row>
    var cards: map<UserId, Cached>

    function Now(): State
      reads this
    {
      State(reviews, nextReview, likes, log, rows, cards)
    }

    constructor ()
      ensures Now() == State(map[], 0, {}, [], map[], map[])
    {
      reviews, nextReview, likes, log, rows, cards := map[], 0, {}, [], map[], map[];
    }

    /** ReputationRepository.invalidate. */
    method Invalidate(user: UserId)
      modifies this`rows
      ensures rows == Invalidated(old(rows), user)
    {
      if user in rows {
        rows := rows[user := rows[user].(computedAt := 0)];
      }
    }

    method SubmitReview(f: Submission, now: Time, deleteOk: bool) returns (r: Result<ReviewId, ReviewError>)
      modifies this
      ensures r.Err? ==> Now() == old(Now())
      ensures r.Ok? ==> reviews == old(reviews)[r.value :=
                Review(r.value, f.booking, f.reviewer, f.reviewee, f.role, f.target, f.rating, f.liked, 0, f.text,
                       f.stamp, Some(now), now + 7 * DAY_MS, None)]
      ensures Now() == AfterSubmit(old(Now()), f, now, deleteOk)
      ensures r == match Refusal(old(reviews), f, now) { case None => Ok(old(nextReview)) case Some(e) => Err(e) }
    {
      if f.found.None? { return Err(NoBooking); }
      if f.found.value.status != "COMPLETED" { return Err(NotCompleted); }
      if f.role != PassengerRole { return Err(ForbiddenRole); }
      if f.target != VehicleTarget { return Err(InvalidTarget); }
      if f.found.value.passenger != f.reviewer { return Err(ForbiddenRole); }
      if !exists v <- f.vehicles :: v.vehicle == f.reviewee { return Err(InvalidReviewee); }
      if Reviewed(reviews, f.booking, f.role, f.target) { return Err(Duplicate); }
      var completed := LastCompletion(f.vehicles, f.found.value.tripStart);
      if now - completed > 7 * DAY_MS { return Err(PeriodExpired); }
      r := Ok(nextReview);
      reviews := reviews[nextReview := NewReview(nextReview, f, now)];
      nextReview := nextReview + 1;
      Invalidate(f.reviewee);
      if deleteOk {
        cards := cards - {f.reviewee};
      }
    }

    method LikeReview(id: ReviewId, user: UserId) returns (r: Result<nat, ReviewError>)
      modifies this
      ensures r.Ok? <==> id in old(reviews) && (id, user) !in old(likes)
      ensures r.Err? ==> Now() == old(Now())
      ensures r.Ok? ==>
                && likes == old(likes) + {(id, user)} && id in reviews && reviews[id].likes == r.value
                && reviews == old(reviews)[id := old(reviews)[id].(likes := old(reviews)[id].likes + 1)]
      ensures Now() == AfterLike(old(Now()), id, user)
      ensures r == match LikeRefusal(old(Now()), id, user) {
                     case None => Ok(old(reviews)[id].likes + 1) case Some(e) => Err(e) }
    {
      if id !in reviews { return Err(NoReview); }
      if (id, user) in likes { return Err(AlreadyDone); }
      likes := likes + {(id, user)};
      r := Ok(reviews[id].likes + 1);
      reviews := reviews[id := reviews[id].(likes := reviews[id].likes + 1)];
    }

    method RespondToReview(user: UserId, id: ReviewId, text: string) returns (failure: Option<ReviewError>)
      modifies this
      ensures failure.None? <==>
              && id in old(reviews) && old(reviews)[id].reviewee == user && old(reviews)[id].revealedAt.Some?
              && old(reviews)[id].response in {None, Some("")}
      ensures Now() == old(Now()).(reviews := reviews)
      ensures reviews == if failure.Some? then old(reviews)
                         else old(reviews)[id := old(reviews)[id].(response := Some(text))]
      ensures Now() == AfterRespond(old(Now()), user, id, text)
      ensures failure == RespondRefusal(old(reviews), user, id)
    {
      if id !in reviews { return Some(NoReview); }
      if reviews[id].reviewee != user { return Some(ForbiddenResponse); }
      if reviews[id].revealedAt.None? { return Some(NotRevealed); }
      if reviews[id].response.GetOr("") != "" { return Some(AlreadyDone); }
      reviews := reviews[id := reviews[id].(response := Some(text))];
      failure := None;
    }

    /** The due reviews may come from the database in any order. */
    method RunRevealJob(now: Time)
      modifies this
      ensures reviews.Keys == old(reviews).Keys && forall id <- reviews ::
                reviews[id] == if old(reviews)[id].revealedAt.None? && old(reviews)[id].expiresAt < now
                               then old(reviews)[id].(revealedAt := Some(now)) else old(reviews)[id]
      ensures Now() == AfterReveal(old(Now()), now)
    {
      ghost var s := Now();
      var due := DueOnes(reviews, now);
      var todo := due;
      assert Revealing(s, now, {}) == s;
      while todo != {}
        invariant todo <= due
        invariant Now() == Revealing(s, now, due - todo)
        decreases todo
      {
        var id :| id in todo;
        RevealOneMore(s, now, due - todo, id);
        assert due - todo + {id} == due - (todo - {id});
        reviews := reviews[id := reviews[id].(revealedAt := Some(now))];
        Invalidate(reviews[id].reviewee);
        todo := todo - {id};
      }
      assert due - todo == due;
      RevealAll(s, now);
    }

    /** Also returns the status change it sends to the booking service. */
    method CancelBooking(r: Request)
      returns (result: Result<Cancellation, Error>, sent: Option<StatusChange>)
      modifies this
      ensures result.Ok? <==>
              && r.found.Some? && (r.role == PassengerRole ==> r.found.value.passenger == r.user)
              && (r.role == OwnerRole ==> r.user in r.owners)
              && r.found.value.status != "CANCELLED" && r.found.value.status != "COMPLETED"
              && r.found.value.status != "IN_TRANSIT"
      ensures log == old(log) + if result.Ok? then [result.value] else []
      ensures result.Ok? ==>
                var c, b := result.value, r.found.value;
                && c.booking == r.booking && c.canceller == r.user && c.role == r.role
                && (c.advancePaid <==> b.paymentStatus == "PAID")
                && (c.late <==> c.advancePaid && r.now > Deadline(b.createdAt, b.tripStart))
                && c.hoursBeforeTrip == Hours(b.tripStart - r.now)
                && c.penalized == c.late && c.offenses == (if c.late then |LateOnes(old(log), r.user)| else 0)
                && c.penalty == if !c.late then 0.0 else if c.offenses == 0 then b.advance * 0.5 else b.advance
      ensures Now() == AfterCancel(old(Now()), r)
      ensures result == Decide(old(log), r)
      ensures sent == if result.Ok? then Some(StatusChange(r.booking, "CANCELLED", "CANCELLED")) else None
    {
      if r.found.None? { return Err(BookingNotFound), None; }
      var b := r.found.value;
      if r.role == PassengerRole && b.passenger != r.user { return Err(ForbiddenUser), None; }
      if r.role == OwnerRole && r.user !in r.owners { return Err(ForbiddenUser), None; }
      if b.status in {"CANCELLED", "COMPLETED", "IN_TRANSIT"} { return Err(InvalidBookingState), None; }
      var advancePaid := b.paymentStatus == "PAID";
      var late := advancePaid && r.now > Deadline(b.createdAt, b.tripStart);
      var penalized, penalty, offenses := false, 0.0, 0;
      if late {
        offenses := CountLate(log, r.user);
        penalized := true;
        penalty := if offenses == 0 then b.advance * 0.5 else b.advance;
      }
      var hours := Hours(b.tripStart - r.now);
      var c := Cancellation(r.booking, r.user, r.role, late, hours, advancePaid, penalized, penalty, offenses);
      log := log + [c];
      sent := Some(StatusChange(r.booking, "CANCELLED", "CANCELLED"));
      Invalidate(r.user);
      result := Ok(c);
    }

    /** ReputationRepository.save. */
    method Save(user: UserId, row: Row)
      modifies this`rows
      ensures rows == old(rows)[user := row]
    {
      rows := rows[user := row];
    }

    /** findRevealedReviewsForCalculation: newest first. */
    method FindRevealedReviews(user: UserId) returns (js: seq<Judgement>)
      ensures js == Judged(reviews, user)
    {
      var visible := Visible(reviews, user, None);
      var todo, keys: seq<Key> := visible, [];
      while todo != {}
        invariant todo <= visible && Descending(keys)
        invariant forall k :: k in keys <==> k in visible - todo
        invariant forall k <- keys, x <- todo :: Newer(k, x)
        decreases todo
      {
        var k := Newest(todo);
        keys := keys + [k];
        todo := todo - {k};
      }
      SortedIsUnique(keys, visible);
      js := Judgements(reviews, keys);
    }

    method GetReputation(user: UserId, now: Time, readOk: bool, writeOk: bool) returns (card: Card)
      modifies this`rows, this`cards
      ensures card == Served(old(Now()), user, now, readOk)
      ensures Now() == AfterGet(old(Now()), user, now, readOk, writeOk)
    {
      if readOk && user in cards && now < cards[user].expiry {
        return cards[user].card;
      }
      var js := FindRevealedReviews(user);
      if user in rows && rows[user].computedAt > now - TEN_MINUTES {
        var row := rows[user];
        card := Card(row.rating, ScoreOf(row.badge), row.badge, Recent(js), row.count, row.trend);
        assert rows[user := row] == rows;
      } else {
        var rating, trend := Weigh(js, now);
        var badge := Reliability(log, user);
        Save(user, Row(rating, badge, |js|, trend, now));
        card := Card(rating, ScoreOf(badge), badge, Recent(js), |js|, trend);
      }
      if writeOk {
        cards := cards[user := Cached(card, now + TEN_MINUTES)];
      }
    }
  }

  /** Math.max over the vehicles that have a completion time, or the trip start. */
  method LastCompletion(vs: seq<BookedVehicle>, otherwise: Time) returns (t: Time)
    ensures t == CompletedAt(vs, otherwise)
    ensures t == otherwise || exists v <- vs :: v.completedAt == Some(t)
    ensures forall v <- vs :: v.completedAt.Some? && v.completedAt.value > 0 ==> t >= v.completedAt.value
    ensures (forall v <- vs :: v.completedAt.None? || v.completedAt.value <= 0) ==> t == otherwise
    ensures (exists v <- vs :: v.completedAt.Some? && v.completedAt.value > 0) ==>
              exists v <- vs :: v.completedAt == Some(t)
  {
    var best: Option<Time> := None;
    var i := |vs|;
    while i > 0
      invariant 0 <= i <= |vs|
      invariant best.Some? <==> exists v <- vs[i..] :: v.completedAt.Some? && v.completedAt.value > 0
      invariant best.Some? ==> exists v <- vs[i..] :: v.completedAt == best
      invariant forall v <- vs[i..] :: v.completedAt.Some? && v.completedAt.value > 0 ==>
                  best.Some? && best.value >= v.completedAt.value
      invariant best.GetOr(otherwise) == CompletedAt(vs[i..], otherwise)
    {
      i := i - 1;
      var c := vs[i].completedAt;
      assert vs[i..] == [vs[i]] + vs[i + 1..];
      if c.Some? && c.value > 0 && (best.None? || c.value > best.value) {
        best := c;
      }
    }
    assert vs[0..] == vs;
    t := best.GetOr(otherwise);
  }

  /** The weighted rating and the trend of a fresh computation. */
  method Weigh(js: seq<Judgement>, now: Time) returns (rating: int, trend: Trend)
    ensures rating == Rating(js, now) && trend == TrendOf(js)
  {
    rating, trend := 0, Stable;
    if |js| > 0 {
      var weightedSum, weightSum := 0, 0;
      for i := 0 to |js|
        invariant weightedSum == WeightedSum(js[..i], now) && weightSum == WeightSum(js[..i], now)
      {
        assert js[..i + 1][..i] == js[..i];
        var weight := 5;
        if now - js[i].at <= 30 * DAY_MS {
          weight := 10;
        } else if now - js[i].at <= 90 * DAY_MS {
          weight := 8;
        }
        weightedSum := weightedSum + js[i].rating * weight;
        weightSum := weightSum + weight;
      }
      assert js[..|js|] == js;
      rating := Hundredths(weightedSum, weightSum);
      var recent := if |js| <= 10 then js else js[..10];
      var allTime, latest := Hundredths(RatingSum(js), |js|), Hundredths(RatingSum(recent), |recent|);
      if latest > allTime + 10 {
        trend := Up;
      } else if latest < allTime - 10 {
        trend := Down;
      }
    }
  }
}
