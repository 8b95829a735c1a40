/**
 What a scorecard means to who reads it: how reviews of different ages weigh against each other, when the
 trend is up or down, which reviews are shown, and how long an answer is kept.
 */
module Ratings {
  import opened Wrappers
  import opened Calendar
  import opened Runs
  import opened Reviews
  import opened ReviewPages
  import opened Cancellations
  import opened Reputation

  // ---------------------------------------------------------------------------
  // How reviews weigh
  // ---------------------------------------------------------------------------

  /** Up to 30 days old, up to 90, or older. */
  datatype Age = New | Fading | Old

  function AgeOf(j: Judgement, now: Time): Age {
    if now <= j.at + 30 * DAY_MS then New else if now <= j.at + 90 * DAY_MS then Fading else Old
  }

  predicate AllOf(js: seq<Judgement>, now: Time, age: Age, rating: int) {
    forall j <- js :: AgeOf(j, now) == age && j.rating == rating
  }

  lemma {:induction false} SumsOfBoth(a: seq<Judgement>, b: seq<Judgement>, now: Time)
    ensures WeightedSum(a + b, now) == WeightedSum(a, now) + WeightedSum(b, now)
    ensures WeightSum(a + b, now) == WeightSum(a, now) + WeightSum(b, now)
  {
    if b == [] {
      assert a + b == a;
    } else {
      assert (a + b)[..|a + b| - 1] == a + b[..|b| - 1];
      SumsOfBoth(a, b[..|b| - 1], now);
    }
  }

  lemma SumsOfThree(a: seq<Judgement>, b: seq<Judgement>, c: seq<Judgement>, now: Time)
    ensures WeightedSum(a + b + c, now) == WeightedSum(a, now) + WeightedSum(b, now) + WeightedSum(c, now)
    ensures WeightSum(a + b + c, now) == WeightSum(a, now) + WeightSum(b, now) + WeightSum(c, now)
  {
    SumsOfBoth(a, b, now);
    SumsOfBoth(a + b, c, now);
  }

  /** The weight, in tenths, of a review of this age. */
  function Tenths(age: Age): int {
    match age
    case New => 10
    case Fading => 8
    case Old => 5
  }

  lemma OneMoreWeight(rating: int, t: int, n: int)
    ensures rating * (t * n) + rating * t == rating * (t * (n + 1))
  {
    assert t * (n + 1) == t * n + t;
  }

  lemma {:induction false} SumsOfAll(js: seq<Judgement>, now: Time, age: Age, rating: int)
    requires AllOf(js, now, age, rating)
    ensures WeightSum(js, now) == Tenths(age) * |js| && WeightedSum(js, now) == rating * (Tenths(age) * |js|)
  {
    if js != [] {
      SumsOfAll(js[..|js| - 1], now, age, rating);
      assert js[|js| - 1] in js;
      OneMoreWeight(rating, Tenths(age), |js| - 1);
    }
  }

  lemma SameWeightSameRating(
    a: seq<Judgement>, xs: seq<Judgement>, ys: seq<Judgement>, b: seq<Judgement>,
    now: Time, x: Age, y: Age, rating: int)
    requires AllOf(xs, now, x, rating) && AllOf(ys, now, y, rating) && Tenths(x) * |xs| == Tenths(y) * |ys|
    requires xs != [] && ys != []
    ensures Rating(a + xs + b, now) == Rating(a + ys + b, now)
  {
    SumsOfAll(xs, now, x, rating);
    SumsOfAll(ys, now, y, rating);
    SumsOfThree(a, xs, b, now);
    SumsOfThree(a, ys, b, now);
  }

  /** Wherever it stands among others, a new review weighs as two old ones with its rating. */
  lemma NewWeighsAsTwoOld(
    a: seq<Judgement>, xs: seq<Judgement>, ys: seq<Judgement>, b: seq<Judgement>, now: Time, rating: int)
    requires AllOf(xs, now, New, rating) && |xs| == 1 && AllOf(ys, now, Old, rating) && |ys| == 2
    ensures Rating(a + xs + b, now) == Rating(a + ys + b, now)
  {
    SameWeightSameRating(a, xs, ys, b, now, New, Old, rating);
  }

  /** And five fading ones as four new ones. */
  lemma FiveFadingWeighAsFourNew(
    a: seq<Judgement>, xs: seq<Judgement>, ys: seq<Judgement>, b: seq<Judgement>, now: Time, rating: int)
    requires AllOf(xs, now, Fading, rating) && |xs| == 5 && AllOf(ys, now, New, rating) && |ys| == 4
    ensures Rating(a + xs + b, now) == Rating(a + ys + b, now)
  {
    SameWeightSameRating(a, xs, ys, b, now, Fading, New, rating);
  }

  /** h hundredths are what sum / n comes to in two decimals, halves up. */
  predicate IsNearest(h: int, sum: int, n: int) {
    -n < 2 * (h * n - 100 * sum) <= n
  }

  lemma HundredthsAreNearest(sum: int, n: int)
    requires n > 0
    ensures IsNearest(Hundredths(sum, n), sum, n)
  {
    var h := Hundredths(sum, n);
    assert h * (2 * n) <= 200 * sum + n < (h + 1) * (2 * n) by {
      QuotientAtLeast(200 * sum + n, 2 * n, h);
      QuotientAtLeast(200 * sum + n, 2 * n, h + 1);
    }
    assert h * (2 * n) == 2 * (h * n) && (h + 1) * (2 * n) == 2 * (h * n) + 2 * n;
  }

  lemma NearestIsUnique(h: int, k: int, sum: int, n: int)
    requires n > 0 && IsNearest(h, sum, n) && IsNearest(k, sum, n)
    ensures h == k
  {
    MultipleIsFar(h - k, n);
    assert (h - k) * n == h * n - k * n;
  }

  lemma {:induction false} SumsOfOneAge(js: seq<Judgement>, now: Time, age: Age)
    requires forall j <- js :: AgeOf(j, now) == age
    ensures WeightSum(js, now) == Tenths(age) * |js| && WeightedSum(js, now) == Tenths(age) * RatingSum(js)
  {
    if js != [] {
      SumsOfOneAge(js[..|js| - 1], now, age);
      assert js[|js| - 1] in js;
    }
  }

  /** When all are of one age, the rating is their plain mean in two decimals. */
  lemma OneAgeIsThePlainMean(js: seq<Judgement>, now: Time, age: Age)
    requires js != [] && forall j <- js :: AgeOf(j, now) == age
    ensures IsNearest(Rating(js, now), RatingSum(js), |js|)
  {
    SumsOfOneAge(js, now, age);
    HundredthsAreNearest(WeightedSum(js, now), WeightSum(js, now));
    CommonFactor(Rating(js, now), RatingSum(js), |js|, Tenths(age));
  }

  lemma CommonFactor(h: int, sum: int, n: int, f: int)
    requires n > 0 && f > 0 && IsNearest(h, f * sum, f * n)
    ensures IsNearest(h, sum, n)
  {
    var x := 2 * (h * n - 100 * sum);
    assert 2 * (h * (f * n) - 100 * (f * sum)) == f * x;
    assert f * (x + n) > 0 && f * (n - x) >= 0;
    PositiveFactor(f, x + n);
    PositiveFactor(f, n - x + 1);
  }

  lemma PositiveFactor(f: int, x: int)
    requires f > 0
    ensures x <= 0 ==> f * x <= 0
    ensures f * (x - 1) >= 0 ==> x >= 1
  {
    if x <= 0 {
      assert f * (x - 1) == f * x - f;
    }
  }

  lemma WholePart(r: int, m: int, d: int)
    requires d > 0
    ensures Hundredths(r * d + m, d) == 100 * r + Hundredths(m, d)
  {
    HundredthsAreNearest(r * d + m, d);
    HundredthsAreNearest(m, d);
    var h := Hundredths(m, d);
    assert (100 * r + h) * d - 100 * (r * d + m) == h * d - 100 * m;
    NearestIsUnique(Hundredths(r * d + m, d), 100 * r + h, r * d + m, d);
  }

  lemma ProductFalls(c: int, d: int, d': int)
    requires d <= d'
    ensures c <= 0 ==> c * d >= c * d'
    ensures c >= 0 ==> c * d <= c * d'
  {
  }

  lemma AtLeast(m: int, d: int, q: int)
    requires d > 0
    ensures Hundredths(m, d) >= q <==> 200 * m >= (2 * q - 1) * d
  {
    QuotientAtLeast(200 * m + d, 2 * d, q);
    assert q * (2 * d) - d == (2 * q - 1) * d;
  }

  /** The larger the divisor, the closer to nothing. */
  lemma Shrinks(m: int, d: int, d': int)
    requires 0 < d <= d'
    ensures m <= 0 ==> Hundredths(m, d) <= Hundredths(m, d') <= 0
    ensures m >= 0 ==> 0 <= Hundredths(m, d') <= Hundredths(m, d)
  {
    AtLeast(m, d', 1);
    AtLeast(m, d', 0);
    var q := if m <= 0 then Hundredths(m, d) else Hundredths(m, d');
    AtLeast(m, d, q);
    AtLeast(m, d', q);
    AtLeast(m, d, 1);
    ProductFalls(2 * q - 1, d, d');
  }

  lemma TowardsTheRating(sum: int, weights: int, r: int, w: int, w': int)
    requires weights >= 0 && 0 < w <= w'
    ensures
      var before, after := Hundredths(sum + r * w, weights + w), Hundredths(sum + r * w', weights + w');
      if sum <= r * weights then before <= after <= 100 * r else 100 * r <= after <= before
  {
    var m := sum - r * weights;
    assert sum + r * w == r * (weights + w) + m && sum + r * w' == r * (weights + w') + m;
    WholePart(r, m, weights + w);
    WholePart(r, m, weights + w');
    Shrinks(m, weights + w, weights + w');
  }

  /** Were one review newer, the rating would not move away from that review's own. */
  lemma NewerMovesTowards(a: seq<Judgement>, j: Judgement, newer: Judgement, b: seq<Judgement>, now: Time)
    requires newer.rating == j.rating && newer.at >= j.at
    ensures
      var before, after := Rating(a + [j] + b, now), Rating(a + [newer] + b, now);
      && (before <= 100 * j.rating ==> before <= after <= 100 * j.rating)
      && (before >= 100 * j.rating ==> 100 * j.rating <= after <= before)
  {
    SumsOfThree(a, [j], b, now);
    SumsOfThree(a, [newer], b, now);
    SumsOfAll([j], now, AgeOf(j, now), j.rating);
    SumsOfAll([newer], now, AgeOf(newer, now), j.rating);
    TowardsTheRating(WeightedSum(a, now) + WeightedSum(b, now), WeightSum(a, now) + WeightSum(b, now),
                     j.rating, Tenths(AgeOf(j, now)), Tenths(AgeOf(newer, now)));
  }

  // ---------------------------------------------------------------------------
  // The trend
  // ---------------------------------------------------------------------------

  /**
   Up, or down, by more than a tenth of a star: the mean of the ten newest against that of all, both in two
   decimals. With ten reviews or fewer these are one, and the trend is stable.
   */
  lemma TrendIff(js: seq<Judgement>, all: int, latest: int)
    requires js != [] && IsNearest(all, RatingSum(js), |js|)
    requires if |js| <= 10 then latest == all else IsNearest(latest, RatingSum(js[..10]), 10)
    ensures TrendOf(js) == if latest > all + 10 then Up else if latest < all - 10 then Down else Stable
  {
    HundredthsAreNearest(RatingSum(js), |js|);
    NearestIsUnique(Hundredths(RatingSum(js), |js|), all, RatingSum(js), |js|);
    if |js| > 10 {
      HundredthsAreNearest(RatingSum(js[..10]), 10);
      NearestIsUnique(Hundredths(RatingSum(js[..10]), 10), latest, RatingSum(js[..10]), 10);
    }
  }

  // ---------------------------------------------------------------------------
  // What is read and shown
  // ---------------------------------------------------------------------------

  /** The judgement is the review, its stamp in whole milliseconds. */
  predicate Reads(j: Judgement, r: Review) {
    j.rating == r.rating && j.role == r.role && j.text == r.text && 1000 * j.at <= r.at < 1000 * (j.at + 1)
  }

  /** The judgements are the user's revealed reviews, all of them, newest first. */
  lemma JudgedAreTheReviews(t: Table, user: UserId) returns (rows: seq<Review>)
    requires WellKeyed(t)
    ensures AreNewest(rows, t, RevealedIds(t, user, None), |RevealedIds(t, user, None)|)
    ensures |Judged(t, user)| == |rows| && forall i | 0 <= i < |rows| :: Reads(Judged(t, user)[i], rows[i])
  {
    var n := |RevealedIds(t, user, None)|;
    var s := Visible(t, user, None);
    FoundRows(t, user, None, None, n, 1);
    FoundIsPage(t, user, None, None, n, 1);
    AheadIsAfter(t, user, None, None);
    assert Ahead(t, user, None, None) == RevealedIds(t, user, None) && After(s, None) == s;
    rows := FindRevealed(t, user, None, None, n, 1).0;
    var keys := PageOf(s, None, n, 1).keys;
    assert KeysOf(rows) == keys == Sorted(s);
    forall i | 0 <= i < |rows| ensures Reads(Judged(t, user)[i], rows[i]) {
      assert rows[i] in rows && KeysOf(rows)[i] == keys[i];
    }
  }

  /** The snippet is the review, a text of more than 120 characters cut there and dotted. */
  predicate Shows(x: Snippet, j: Judgement) {
    && x.rating == j.rating && (x.byPassenger <==> j.role == PassengerRole)
    && (|j.text| <= 120 ==> x.text == j.text)
    && (|j.text| > 120 ==> |x.text| == 123 && x.text[..120] == j.text[..120] && x.text[120..] == "...")
  }

  /** An answer that is not from Redis shows the three newest reviews; a computed one also counts all of them. */
  lemma CardShows(s: State, user: UserId, now: Time, readOk: bool)
    requires !CardIsLive(s, user, now, readOk)
    ensures
      var card, js := Served(s, user, now, readOk), Judged(s.reviews, user);
      && |card.recent| == (if |js| <= 3 then |js| else 3)
      && (forall i | 0 <= i < |card.recent| :: Shows(card.recent[i], js[i]))
      && (!RowIsFresh(s, user, now) ==>
            card.count == |js| && card.trend == TrendOf(js) && card.rating == Rating(js, now))
  {
  }

  /** A computed answer that is written is given again for ten minutes and no longer. */
  lemma CardIsKept(s: State, user: UserId, t: Time, t': Time, readOk: bool)
    requires !CardIsLive(s, user, t, readOk)
    ensures
      var after := Apply(s, Timed(t, Get(user, readOk, true)));
      && (CardIsLive(after, user, t', true) <==> t' < t + 600_000)
      && (t' < t + 600_000 ==> Served(after, user, t', true) == Served(s, user, t, readOk))
  {
  }

  /** And without Redis its figures are: the stored row is used again for ten minutes. */
  lemma RowIsKept(s: State, user: UserId, t: Time, t': Time, readOk: bool)
    requires !CardIsLive(s, user, t, readOk) && !RowIsFresh(s, user, t)
    ensures
      var after := Apply(s, Timed(t, Get(user, readOk, false)));
      && (RowIsFresh(after, user, t') <==> t' < t + 600_000)
      && (t' < t + 600_000 ==>
            && Served(after, user, t', false).rating == Rating(Judged(s.reviews, user), t)
            && Served(after, user, t', false).badge == Reliability(s.log, user))
  {
  }
}
