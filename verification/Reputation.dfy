/**
 The reputation scorecard and its two caches: a database row trusted for ten minutes and a Redis card
 kept for ten more. Proved over all runs: a card served is the card of some state of the last 600 s,
 with a rating weighed at most 600 s before that; and without failing deletes its review count, trend
 and recent reviews are always those of the current table.
 */
module Reputation {
  import opened Wrappers
  import opened Calendar
  import opened Runs
  import opened Reviews
  import opened Cancellations

  const TEN_MINUTES: int := 600 * SECOND_MS

  datatype Trend = Up | Down | Stable

  /** What the scorecard reads of a review; `at` is the stamp as a JavaScript date, in milliseconds. */
  datatype Judgement = Judgement(rating: int, role: Role, text: string, at: Time)
  datatype Snippet = Snippet(byPassenger: bool, rating: int, text: string)

  /** A rating is in hundredths of a star. */
  datatype Card = Card(rating: int, reliability: nat, badge: Badge, recent: seq<Snippet>, count: nat, trend: Trend)
  datatype Row = Row(rating: int, badge: Badge, count: nat, trend: Trend, computedAt: Time)
  datatype Cached = Cached(card: Card, expiry: Time)

  datatype State = State(
    reviews: Table, nextReview: nat, likes: set<(ReviewId, UserId)>, log: seq<Cancellation>,
    rows: map<UserId, Row>, cards: map<UserId, Cached>)

  // ---------------------------------------------------------------------------
  // The scorecard, computed fresh
  // ---------------------------------------------------------------------------

  function JudgementOf(r: Review): Judgement {
    Judgement(r.rating, r.role, r.text, r.at / TICKS)
  }

  /** findRevealedReviewsForCalculation: newest first. */
  ghost function Judged(t: Table, user: UserId): seq<Judgement> {
    Judgements(t, Sorted(Visible(t, user, None)))
  }

  function JudgementAt(t: Table, id: ReviewId): Judgement {
    if id in t then JudgementOf(t[id]) else Judgement(0, OwnerRole, "", 0)
  }

  function Judgements(t: Table, keys: seq<Key>): (js: seq<Judgement>)
    ensures |js| == |keys| && forall i | 0 <= i < |keys| :: js[i] == JudgementAt(t, keys[i].id)
  {
    seq(|keys|, i requires 0 <= i < |keys| => JudgementAt(t, keys[i].id))
  }

  /** In tenths: 1.0 up to 30 days old, 0.8 up to 90 days, 0.5 after. */
  function Weight(j: Judgement, now: Time): (w: int)
    ensures 5 <= w <= 10
  {
    if now - j.at <= 30 * DAY_MS then 10 else if now - j.at <= 90 * DAY_MS then 8 else 5
  }

  function WeightedSum(js: seq<Judgement>, now: Time): int {
    if js == [] then 0
    else WeightedSum(js[..|js| - 1], now) + js[|js| - 1].rating * Weight(js[|js| - 1], now)
  }

  function WeightSum(js: seq<Judgement>, now: Time): (w: int)
    ensures 5 * |js| <= w <= 10 * |js|
  {
    if js == [] then 0 else WeightSum(js[..|js| - 1], now) + Weight(js[|js| - 1], now)
  }

  function RatingSum(js: seq<Judgement>): int {
    if js == [] then 0 else RatingSum(js[..|js| - 1]) + js[|js| - 1].rating
  }

  /** Number((n / d).toFixed(2)), in hundredths. */
  function Hundredths(n: int, d: int): int
    requires d > 0
  {
    (200 * n + d) / (2 * d)
  }

  function Rating(js: seq<Judgement>, now: Time): int {
    if js == [] then 0 else Hundredths(WeightedSum(js, now), WeightSum(js, now))
  }

  function TrendOf(js: seq<Judgement>): Trend {
    if js == [] then Stable
    else
      var recent := if |js| <= 10 then js else js[..10];
      var all, latest := Hundredths(RatingSum(js), |js|), Hundredths(RatingSum(recent), |recent|);
      if latest > all + 10 then Up else if latest < all - 10 then Down else Stable
  }

  function SnippetOf(j: Judgement): Snippet {
    Snippet(j.role == PassengerRole, j.rating, if |j.text| > 120 then j.text[..120] + "..." else j.text)
  }

  function Recent(js: seq<Judgement>): seq<Snippet> {
    var n := if |js| < 3 then |js| else 3;
    seq(n, i requires 0 <= i < n => SnippetOf(js[i]))
  }

  /** The card a fresh computation gives, with the reviews weighed by their age at `weighed`. */
  ghost function CardOf(s: State, user: UserId, weighed: Time): Card {
    var js, badge := Judged(s.reviews, user), Reliability(s.log, user);
    Card(Rating(js, weighed), ScoreOf(badge), badge, Recent(js), |js|, TrendOf(js))
  }

  ghost function RowOf(s: State, user: UserId, now: Time): Row {
    var js := Judged(s.reviews, user);
    Row(Rating(js, now), Reliability(s.log, user), |js|, TrendOf(js), now)
  }

  /** The weighted rating lies between the lowest and the highest review. */
  lemma RatingInRange(js: seq<Judgement>, now: Time, lo: int, hi: int)
    requires js != [] && forall j <- js :: lo <= j.rating <= hi
    ensures 100 * lo <= Rating(js, now) <= 100 * hi
  {
    SumInRange(js, now, lo, hi);
    HundredthsInRange(WeightedSum(js, now), WeightSum(js, now), lo, hi);
  }

  lemma HundredthsInRange(n: int, d: int, lo: int, hi: int)
    requires d > 0 && lo * d <= n <= hi * d
    ensures 100 * lo <= Hundredths(n, d) <= 100 * hi
  {
    QuotientAtLeast(200 * n + d, 2 * d, 100 * lo);
    QuotientAtLeast(200 * n + d, 2 * d, 100 * hi + 1);
    assert (100 * lo) * (2 * d) == 200 * (lo * d) && (100 * hi + 1) * (2 * d) == 200 * (hi * d) + 2 * d;
  }

  lemma {:induction false} SumInRange(js: seq<Judgement>, now: Time, lo: int, hi: int)
    requires forall j <- js :: lo <= j.rating <= hi
    ensures lo * WeightSum(js, now) <= WeightedSum(js, now) <= hi * WeightSum(js, now)
  {
    if js != [] {
      SumInRange(js[..|js| - 1], now, lo, hi);
      assert js[|js| - 1] in js;
      OneMore(WeightedSum(js[..|js| - 1], now), WeightSum(js[..|js| - 1], now),
              js[|js| - 1].rating, Weight(js[|js| - 1], now), lo, hi);
    }
  }

  lemma OneMore(sum: int, weights: int, rating: int, w: int, lo: int, hi: int)
    requires lo * weights <= sum <= hi * weights && lo <= rating <= hi && w > 0
    ensures lo * (weights + w) <= sum + rating * w <= hi * (weights + w)
  {
  }

  // ---------------------------------------------------------------------------
  // The steps
  // ---------------------------------------------------------------------------

  datatype BookedVehicle = BookedVehicle(vehicle: UserId, owner: UserId, completedAt: Option<Time>)
  /** `found` and `vehicles` are what the booking service answers, `stamp` the database clock at insertion, in ticks. */
  datatype Submission = Submission(
    reviewer: UserId, booking: BookingId, reviewee: UserId, role: Role, target: Target,
    rating: int, liked: bool, text: string, found: Option<Booking>, vehicles: seq<BookedVehicle>, stamp: int)

  datatype ReviewError =
    | NoBooking | NotCompleted | ForbiddenRole | InvalidTarget | InvalidReviewee | Duplicate | PeriodExpired
    | NoReview | ForbiddenResponse | NotRevealed | AlreadyDone

  datatype Event =
    | Submit(form: Submission, deleteOk: bool)
    | Like(review: ReviewId, user: UserId)
    | Respond(user: UserId, review: ReviewId, text: string)
    | RevealDue
    | Cancel(request: Request)
    | Get(user: UserId, readOk: bool, writeOk: bool)

  type Step = Timed<Event>

  /** The latest completion of the booked vehicles, or the trip start when none is complete. */
  function CompletedAt(vs: seq<BookedVehicle>, otherwise: Time): Time {
    if vs == [] then otherwise
    else
      var rest, c := CompletedAt(vs[1..], otherwise), vs[0].completedAt;
      if c.None? || c.value <= 0 then rest
      else if forall v <- vs[1..] :: v.completedAt.None? || v.completedAt.value <= 0 then c.value
      else Max(c.value, rest)
  }

  predicate Reviewed(t: Table, booking: BookingId, role: Role, target: Target) {
    exists id <- t :: t[id].booking == booking && t[id].role == role && t[id].target == target
  }

  /** submitReview refuses in this order. */
  function Refusal(t: Table, f: Submission, now: Time): Option<ReviewError> {
    if f.found.None? then Some(NoBooking)
    else if f.found.value.status != "COMPLETED" then Some(NotCompleted)
    else if f.role != PassengerRole then Some(ForbiddenRole)
    else if f.target != VehicleTarget then Some(InvalidTarget)
    else if f.found.value.passenger != f.reviewer then Some(ForbiddenRole)
    else if !exists v <- f.vehicles :: v.vehicle == f.reviewee then Some(InvalidReviewee)
    else if Reviewed(t, f.booking, f.role, f.target) then Some(Duplicate)
    else if now - CompletedAt(f.vehicles, f.found.value.tripStart) > 7 * DAY_MS then Some(PeriodExpired)
    else None
  }

  /** A submitted review is revealed at once. */
  function NewReview(id: ReviewId, f: Submission, now: Time): Review {
    Review(id, f.booking, f.reviewer, f.reviewee, f.role, f.target, f.rating, f.liked, 0, f.text, f.stamp,
           Some(now), now + 7 * DAY_MS, None)
  }

  /** Stamps the row with the epoch, so it is never taken as fresh. */
  function Invalidated(rows: map<UserId, Row>, user: UserId): map<UserId, Row> {
    if user in rows then rows[user := rows[user].(computedAt := 0)] else rows
  }

  function AfterSubmit(s: State, f: Submission, now: Time, deleteOk: bool): State {
    if Refusal(s.reviews, f, now).Some? then s
    else s.(reviews := s.reviews[s.nextReview := NewReview(s.nextReview, f, now)],
            nextReview := s.nextReview + 1,
            rows := Invalidated(s.rows, f.reviewee),
            cards := if deleteOk then s.cards - {f.reviewee} else s.cards)
  }

  function LikeRefusal(s: State, id: ReviewId, user: UserId): Option<ReviewError> {
    if id !in s.reviews then Some(NoReview) else if (id, user) in s.likes then Some(AlreadyDone) else None
  }

  function Liked(r: Review): Review {
    r.(likes := r.likes + 1)
  }

  function AfterLike(s: State, id: ReviewId, user: UserId): State {
    if LikeRefusal(s, id, user).Some? then s
    else s.(likes := s.likes + {(id, user)}, reviews := s.reviews[id := Liked(s.reviews[id])])
  }

  function RespondRefusal(t: Table, user: UserId, id: ReviewId): Option<ReviewError> {
    if id !in t then Some(NoReview)
    else if t[id].reviewee != user then Some(ForbiddenResponse)
    else if t[id].revealedAt.None? then Some(NotRevealed)
    else if t[id].response.Some? && t[id].response.value != "" then Some(AlreadyDone)
    else None
  }

  function AfterRespond(s: State, user: UserId, id: ReviewId, text: string): State {
    if RespondRefusal(s.reviews, user, id).Some? then s
    else s.(reviews := s.reviews[id := s.reviews[id].(response := Some(text))])
  }

  predicate Due(r: Review, now: Time) {
    r.revealedAt.None? && r.expiresAt < now
  }

  /** runRevealJob: reveals what is due and invalidates the reviewees' rows, but not their cards. */
  function AfterReveal(s: State, now: Time): State {
    s.(reviews := map id <- s.reviews :: RevealedIfDue(s.reviews[id], now),
       rows := map u <- s.rows ::
         if exists id <- s.reviews :: Due(s.reviews[id], now) && s.reviews[id].reviewee == u
         then s.rows[u].(computedAt := 0) else s.rows[u])
  }

  function RevealedIfDue(r: Review, now: Time): Review {
    if Due(r, now) then r.(revealedAt := Some(now)) else r
  }

  function AfterCancel(s: State, r: Request): State {
    match Decide(s.log, r)
    case Err(_) => s
    case Ok(c) => s.(log := s.log + [c], rows := Invalidated(s.rows, r.user))
  }

  predicate CardIsLive(s: State, user: UserId, now: Time, readOk: bool) {
    readOk && user in s.cards && now < s.cards[user].expiry
  }

  predicate RowIsFresh(s: State, user: UserId, now: Time) {
    user in s.rows && s.rows[user].computedAt > now - TEN_MINUTES
  }

  /** The row the answer is made from: the fresh one kept, or a new one. */
  ghost function RowFor(s: State, user: UserId, now: Time): Row {
    if RowIsFresh(s, user, now) then s.rows[user] else RowOf(s, user, now)
  }

  ghost function CardFromRow(s: State, user: UserId, row: Row): Card {
    Card(row.rating, ScoreOf(row.badge), row.badge, Recent(Judged(s.reviews, user)), row.count, row.trend)
  }

  /** getReputation: the Redis card, the database row, or a fresh computation. */
  ghost function Served(s: State, user: UserId, now: Time, readOk: bool): Card {
    if CardIsLive(s, user, now, readOk) then s.cards[user].card
    else CardFromRow(s, user, RowFor(s, user, now))
  }

  ghost function AfterGet(s: State, user: UserId, now: Time, readOk: bool, writeOk: bool): State {
    if CardIsLive(s, user, now, readOk) then s
    else s.(rows := s.rows[user := RowFor(s, user, now)],
            cards :=
              if writeOk then s.cards[user := Cached(CardFromRow(s, user, RowFor(s, user, now)), now + TEN_MINUTES)]
              else s.cards)
  }

  ghost function Apply(s: State, e: Step): State {
    match e.event
    case Submit(f, deleteOk) => AfterSubmit(s, f, e.at, deleteOk)
    case Like(id, user) => AfterLike(s, id, user)
    case Respond(user, id, text) => AfterRespond(s, user, id, text)
    case RevealDue => AfterReveal(s, e.at)
    case Cancel(r) => AfterCancel(s, r)
    case Get(user, readOk, writeOk) => AfterGet(s, user, e.at, readOk, writeOk)
  }

  ghost predicate ValidReviews(s: State) {
    WellKeyed(s.reviews) && forall id <- s.reviews :: id < s.nextReview
  }

  /** A run from any reviews and cancellations with both caches empty; clocks are past the epoch's first ten minutes. */
  ghost predicate IsRun(ws: seq<State>, es: seq<Step>) {
    && |ws| == |es| + 1
    && ValidReviews(ws[0]) && ws[0].rows == map[] && ws[0].cards == map[]
    && ClockForward(es) && (forall i | 0 <= i < |es| :: es[i].at >= TEN_MINUTES)
    && (forall i | 0 <= i < |es| :: ws[i + 1] == Apply(ws[i], es[i]))
  }

  // ---------------------------------------------------------------------------
  // What each step leaves alone
  // ---------------------------------------------------------------------------

  predicate Shows(t: Table, id: ReviewId, user: UserId) {
    id in t && Revealed(t[id], user, None)
  }

  /** What the scorecard reads of one review of the user is the same in both tables. */
  predicate SameReview(t: Table, u: Table, id: ReviewId, user: UserId) {
    && (Shows(t, id, user) <==> Shows(u, id, user))
    && (Shows(t, id, user) && Shows(u, id, user) ==>
          KeyOf(t[id]) == KeyOf(u[id]) && JudgementOf(t[id]) == JudgementOf(u[id]))
  }

  lemma SameKey(t: Table, u: Table, k: Key, user: UserId)
    requires WellKeyed(t) && WellKeyed(u) && SameReview(t, u, k.id, user) && k in Visible(t, user, None)
    ensures k in Visible(u, user, None) && JudgementAt(t, k.id) == JudgementAt(u, k.id)
  {
  }

  lemma SameReviewsSameKeys(t: Table, u: Table, user: UserId)
    requires WellKeyed(t) && WellKeyed(u) && forall id :: SameReview(t, u, id, user)
    ensures Visible(t, user, None) == Visible(u, user, None)
  {
    forall k ensures k in Visible(t, user, None) <==> k in Visible(u, user, None) {
      assert SameReview(t, u, k.id, user) && SameReview(u, t, k.id, user);
      if k in Visible(t, user, None) { SameKey(t, u, k, user); }
      if k in Visible(u, user, None) { SameKey(u, t, k, user); }
    }
  }

  lemma SameReviewsSameList(t: Table, u: Table, user: UserId)
    requires WellKeyed(t) && WellKeyed(u) && forall id :: SameReview(t, u, id, user)
    ensures Judged(t, user) == Judged(u, user)
  {
    SameReviewsSameKeys(t, u, user);
    var keys := Sorted(Visible(t, user, None));
    forall i | 0 <= i < |keys| ensures JudgementAt(t, keys[i].id) == JudgementAt(u, keys[i].id) {
      assert keys[i] in keys && SameReview(t, u, keys[i].id, user);
      SameKey(t, u, keys[i], user);
    }
    assert Judgements(t, keys) == Judgements(u, keys);
  }

  /** Rewriting what the scorecard does not read leaves every list as it was. */
  lemma EditedRow(t: Table, id: ReviewId, r: Review, user: UserId)
    requires WellKeyed(t) && id in t && KeyOf(r) == KeyOf(t[id]) && JudgementOf(r) == JudgementOf(t[id])
    requires r.reviewee == t[id].reviewee && r.revealedAt == t[id].revealedAt
    ensures Judged(t[id := r], user) == Judged(t, user)
  {
    var u := t[id := r];
    forall i ensures SameReview(u, t, i, user) {}
    SameReviewsSameList(u, t, user);
  }

  /** The steps that can change what the scorecard reads of a user's reviews. */
  ghost predicate Touches(s: State, e: Step, user: UserId) {
    match e.event
    case Submit(f, _) => Refusal(s.reviews, f, e.at).None? && f.reviewee == user
    case RevealDue => exists id <- s.reviews :: Due(s.reviews[id], e.at) && s.reviews[id].reviewee == user
    case _ => false
  }

  lemma SubmittedElsewhere(s: State, f: Submission, now: Time, user: UserId)
    requires ValidReviews(s) && user != f.reviewee
    ensures Judged(s.reviews[s.nextReview := NewReview(s.nextReview, f, now)], user) == Judged(s.reviews, user)
  {
    var u := s.reviews[s.nextReview := NewReview(s.nextReview, f, now)];
    forall id ensures SameReview(u, s.reviews, id, user) {}
    SameReviewsSameList(u, s.reviews, user);
  }

  lemma NothingDue(t: Table, now: Time, user: UserId)
    requires WellKeyed(t) && forall id <- t :: Due(t[id], now) ==> t[id].reviewee != user
    ensures Judged(map id <- t :: RevealedIfDue(t[id], now), user) == Judged(t, user)
  {
    var u := map id <- t :: RevealedIfDue(t[id], now);
    forall id ensures SameReview(u, t, id, user) {}
    SameReviewsSameList(u, t, user);
  }

  lemma LikeKeepsJudged(s: State, id: ReviewId, u: UserId, user: UserId)
    requires ValidReviews(s)
    ensures Judged(AfterLike(s, id, u).reviews, user) == Judged(s.reviews, user)
  {
    if LikeRefusal(s, id, u).None? {
      EditedRow(s.reviews, id, Liked(s.reviews[id]), user);
    }
  }

  lemma AnswerKeepsJudged(s: State, u: UserId, id: ReviewId, text: string, user: UserId)
    requires ValidReviews(s)
    ensures Judged(AfterRespond(s, u, id, text).reviews, user) == Judged(s.reviews, user)
  {
    if RespondRefusal(s.reviews, u, id).None? {
      EditedRow(s.reviews, id, s.reviews[id].(response := Some(text)), user);
    }
  }

  lemma JudgedStays(s: State, e: Step, user: UserId)
    requires ValidReviews(s) && !Touches(s, e, user)
    ensures Judged(Apply(s, e).reviews, user) == Judged(s.reviews, user)
  {
    match e.event
    case Submit(f, _) =>
      if Refusal(s.reviews, f, e.at).None? { SubmittedElsewhere(s, f, e.at, user); }
    case Like(id, u) => LikeKeepsJudged(s, id, u, user);
    case Respond(u, id, text) => AnswerKeepsJudged(s, u, id, text, user);
    case RevealDue => NothingDue(s.reviews, e.at, user);
    case Cancel(_) =>
    case Get(_, _, _) =>
  }

  lemma StepKeepsValidReviews(s: State, e: Step)
    requires ValidReviews(s)
    ensures ValidReviews(Apply(s, e))
  {
  }

  lemma RevealGrows(s: State, now: Time)
    ensures Grows(s.reviews, AfterReveal(s, now).reviews)
  {
  }

  /** Every step only adds or reveals reviews: the pages of a client that walks meanwhile see tables that grow. */
  lemma StepGrows(s: State, e: Step)
    requires ValidReviews(s)
    ensures Grows(s.reviews, Apply(s, e).reviews)
  {
    match e.event
    case Submit(f, deleteOk) => assert Grows(s.reviews, AfterSubmit(s, f, e.at, deleteOk).reviews);
    case Like(id, user) => assert Grows(s.reviews, AfterLike(s, id, user).reviews);
    case Respond(user, id, text) => assert Grows(s.reviews, AfterRespond(s, user, id, text).reviews);
    case RevealDue => RevealGrows(s, e.at);
    case Cancel(_) =>
    case Get(_, _, _) =>
  }

  lemma GrowsTwice(t: Table, u: Table, v: Table)
    requires Grows(t, u) && Grows(u, v)
    ensures Grows(t, v)
  {
  }

  lemma {:induction false} RunGrows(ws: seq<State>, es: seq<Step>, m: nat, n: nat)
    requires IsRun(ws, es) && m <= n <= |es|
    ensures ValidReviews(ws[n]) && Grows(ws[m].reviews, ws[n].reviews)
  {
    if n == 0 {
    } else if m == n {
      RunGrows(ws, es, m - 1, n - 1);
      StepKeepsValidReviews(ws[n - 1], es[n - 1]);
    } else {
      RunGrows(ws, es, m, n - 1);
      assert ws[n] == Apply(ws[n - 1], es[n - 1]);
      StepKeepsValidReviews(ws[n - 1], es[n - 1]);
      StepGrows(ws[n - 1], es[n - 1]);
      GrowsTwice(ws[m].reviews, ws[n - 1].reviews, ws[n].reviews);
    }
  }

  lemma MoreShown(t: Table, u: Table, id: ReviewId, user: UserId)
    requires WellKeyed(t) && WellKeyed(u) && Grows(t, u) && Shows(u, id, user) && !Shows(t, id, user)
    ensures |Judged(t, user)| < |Judged(u, user)|
  {
    var before, after := Visible(t, user, None), Visible(u, user, None);
    forall k <- before ensures k in after {
      VisibleKeysHaveRows(t, user, None);
      assert Shows(u, k.id, user) && KeyOf(u[k.id]) == k;
    }
    VisibleKeysHaveRows(t, user, None);
    assert KeyOf(u[id]) in after && KeyOf(u[id]) !in before;
    SmallerSet(before, after);
  }

  lemma SmallerSet<T>(a: set<T>, b: set<T>)
    requires a < b
    ensures |a| < |b|
  {
    assert b == a + (b - a);
  }

  /** A step that touches a user's reviews shows more of them. */
  lemma TouchedGrows(s: State, e: Step, user: UserId)
    requires ValidReviews(s) && Touches(s, e, user)
    ensures |Judged(s.reviews, user)| < |Judged(Apply(s, e).reviews, user)|
  {
    StepGrows(s, e);
    StepKeepsValidReviews(s, e);
    if e.event.Submit? {
      MoreShown(s.reviews, Apply(s, e).reviews, s.nextReview, user);
    } else {
      var id :| id in s.reviews && Due(s.reviews[id], e.at) && s.reviews[id].reviewee == user;
      MoreShown(s.reviews, Apply(s, e).reviews, id, user);
    }
  }

  lemma CancelledElsewhere(s: State, r: Request, user: UserId)
    requires Decide(s.log, r).Err? || user != r.user
    ensures Reliability(AfterCancel(s, r).log, user) == Reliability(s.log, user)
  {
  }

  // ---------------------------------------------------------------------------
  // The database row
  // ---------------------------------------------------------------------------

  /** A row is stamped with the epoch, or it is what a computation at its stamp gives with today's tables. */
  ghost predicate RowCurrent(s: State, user: UserId, row: Row) {
    row.computedAt == 0 || row == RowOf(s, user, row.computedAt)
  }

  ghost predicate RowsCurrent(s: State) {
    forall u <- s.rows :: RowCurrent(s, u, s.rows[u])
  }

  /** What a step can do to a user's row. */
  lemma RowAfterStep(s: State, e: Step, user: UserId)
    requires user in Apply(s, e).rows
    ensures
      var row := Apply(s, e).rows[user];
      || row.computedAt == 0
      || (e.event.Get? && Apply(s, e).reviews == s.reviews && Apply(s, e).log == s.log && row == RowFor(s, user, e.at))
      || (user in s.rows && row == s.rows[user] && !Touches(s, e, user) && (e.event.Cancel? ==>
            Decide(s.log, e.event.request).Err? || e.event.request.user != user))
  {
  }

  lemma ReliabilityStays(s: State, e: Step, user: UserId)
    requires e.event.Cancel? ==> Decide(s.log, e.event.request).Err? || e.event.request.user != user
    ensures Reliability(Apply(s, e).log, user) == Reliability(s.log, user)
  {
    if e.event.Cancel? {
      CancelledElsewhere(s, e.event.request, user);
    }
  }

  lemma RowStaysCurrent(s: State, e: Step, user: UserId)
    requires ValidReviews(s) && RowsCurrent(s) && user in Apply(s, e).rows
    ensures RowCurrent(Apply(s, e), user, Apply(s, e).rows[user])
  {
    var s', row := Apply(s, e), Apply(s, e).rows[user];
    RowAfterStep(s, e, user);
    if row.computedAt == 0 {
    } else if e.event.Get? && row == RowFor(s, user, e.at) {
      SameTablesSameRow(s, s', user, row.computedAt);
    } else {
      JudgedStays(s, e, user);
      ReliabilityStays(s, e, user);
      SameTablesSameRow(s, s', user, row.computedAt);
    }
  }

  lemma SameTablesSameRow(s: State, t: State, user: UserId, now: Time)
    requires Judged(s.reviews, user) == Judged(t.reviews, user) && Reliability(s.log, user) == Reliability(t.log, user)
    ensures RowOf(s, user, now) == RowOf(t, user, now)
  {
  }

  lemma {:induction false} RowsAlwaysCurrent(ws: seq<State>, es: seq<Step>, n: nat)
    requires IsRun(ws, es) && n <= |es|
    ensures ValidReviews(ws[n]) && RowsCurrent(ws[n])
  {
    if n > 0 {
      RowsAlwaysCurrent(ws, es, n - 1);
      assert ws[n] == Apply(ws[n - 1], es[n - 1]);
      StepKeepsValidReviews(ws[n - 1], es[n - 1]);
      forall u <- ws[n].rows ensures RowCurrent(ws[n], u, ws[n].rows[u]) {
        RowStaysCurrent(ws[n - 1], es[n - 1], u);
      }
    }
  }

  /** No row is from the future, so a fresh one was computed in the last ten minutes. */
  lemma {:induction false} RowsNotFromTheFuture(ws: seq<State>, es: seq<Step>, n: nat, user: UserId)
    requires IsRun(ws, es) && n <= |es| && user in ws[n].rows
    ensures n > 0 && ws[n].rows[user].computedAt <= es[n - 1].at
  {
    if n > 0 {
      assert ws[n] == Apply(ws[n - 1], es[n - 1]);
      RowAfterStep(ws[n - 1], es[n - 1], user);
      if user in ws[n - 1].rows {
        RowsNotFromTheFuture(ws, es, n - 1, user);
        assert es[n - 2].at <= es[n - 1].at;
      }
    }
  }

  /** What the database tier or a fresh computation answers at time t after n events. */
  lemma FromRow(ws: seq<State>, es: seq<Step>, n: nat, user: UserId, t: Time) returns (weighed: Time)
    requires IsRun(ws, es) && n <= |es| && InForce(es, n, t) && t >= TEN_MINUTES
    ensures t - TEN_MINUTES < weighed <= t
    ensures CardFromRow(ws[n], user, RowFor(ws[n], user, t)) == CardOf(ws[n], user, weighed)
  {
    RowsAlwaysCurrent(ws, es, n);
    if RowIsFresh(ws[n], user, t) {
      RowsNotFromTheFuture(ws, es, n, user);
      weighed := ws[n].rows[user].computedAt;
      assert RowCurrent(ws[n], user, ws[n].rows[user]);
    } else {
      weighed := t;
    }
  }

  // ---------------------------------------------------------------------------
  // The Redis card
  // ---------------------------------------------------------------------------

  /** The card of the state in force at c, with a rating weighed in the ten minutes before c. */
  ghost predicate CardAt(ws: seq<State>, es: seq<Step>, user: UserId, card: Card, c: Time)
    requires |ws| == |es| + 1
  {
    exists j, weighed :: InForce(es, j, c) && c - TEN_MINUTES < weighed <= c && card == CardOf(ws[j], user, weighed)
  }

  ghost predicate CardWitnessed(ws: seq<State>, es: seq<Step>, n: nat, user: UserId, cached: Cached)
    requires |ws| == |es| + 1 && n <= |es|
  {
    && n > 0 && cached.expiry - TEN_MINUTES <= es[n - 1].at
    && CardAt(ws, es, user, cached.card, cached.expiry - TEN_MINUTES)
  }

  /** The card a read writes when it finds no live one. */
  ghost function CardWritten(s: State, user: UserId, now: Time): Cached {
    Cached(CardFromRow(s, user, RowFor(s, user, now)), now + TEN_MINUTES)
  }

  lemma CardsAfterStep(s: State, e: Step, user: UserId)
    requires user in Apply(s, e).cards
    ensures
      || (user in s.cards && Apply(s, e).cards[user] == s.cards[user])
      || (e.event.Get? && Apply(s, e).cards[user] == CardWritten(s, user, e.at))
  {
  }

  lemma {:induction false} CardsAlwaysWitnessed(ws: seq<State>, es: seq<Step>, n: nat, user: UserId)
    requires IsRun(ws, es) && n <= |es| && user in ws[n].cards
    ensures CardWitnessed(ws, es, n, user, ws[n].cards[user])
  {
    if n > 0 {
      assert ws[n] == Apply(ws[n - 1], es[n - 1]);
      assert InForce(es, n - 1, es[n - 1].at) && (n > 1 ==> es[n - 2].at <= es[n - 1].at);
      CardsAfterStep(ws[n - 1], es[n - 1], user);
      if user in ws[n - 1].cards && ws[n].cards[user] == ws[n - 1].cards[user] {
        CardsAlwaysWitnessed(ws, es, n - 1, user);
      } else {
        var weighed := FromRow(ws, es, n - 1, user, es[n - 1].at);
        assert CardAt(ws, es, user, ws[n].cards[user].card, es[n - 1].at);
      }
    }
  }

  /** The card of some state of the last ten minutes, its rating weighed at most ten minutes before. */
  ghost predicate CardRecently(ws: seq<State>, es: seq<Step>, user: UserId, card: Card, t: Time)
    requires |ws| == |es| + 1
  {
    exists c :: t - TEN_MINUTES < c <= t && CardAt(ws, es, user, card, c)
  }

  /**
   Whichever tier answers, and whatever Redis fails to read, write or delete: a scorecard served at
   time t is the card of a state of the last 600 s, its rating never weighed more than 1200 s ago.
   */
  lemma ServedIsRecent(ws: seq<State>, es: seq<Step>, user: UserId, t: Time, readOk: bool)
    requires IsRun(ws, es) && t >= TEN_MINUTES && (|es| > 0 ==> es[|es| - 1].at <= t)
    ensures CardRecently(ws, es, user, Served(ws[|es|], user, t, readOk), t)
  {
    if CardIsLive(ws[|es|], user, t, readOk) {
      CardsAlwaysWitnessed(ws, es, |es|, user);
      var cached := ws[|es|].cards[user];
      assert CardAt(ws, es, user, cached.card, cached.expiry - TEN_MINUTES);
    } else {
      var weighed := FromRow(ws, es, |es|, user, t);
      assert CardAt(ws, es, user, Served(ws[|es|], user, t, readOk), t);
    }
  }

  // ---------------------------------------------------------------------------
  // When the reviews on a card are current
  // ---------------------------------------------------------------------------

  /** The card agrees with the current reviews, weighed at some moment of the `age` before now. */
  ghost predicate UpToDate(s: State, user: UserId, card: Card, now: Time, age: int) {
    var js := Judged(s.reviews, user);
    && card.count == |js| && card.trend == TrendOf(js) && card.recent == Recent(js)
    && RatingOfAge(js, card.rating, now, age)
  }

  ghost predicate RatingOfAge(js: seq<Judgement>, rating: int, now: Time, age: int) {
    exists weighed :: now - age < weighed <= now && rating == Rating(js, weighed)
  }

  ghost predicate CachedUpToDate(s: State, user: UserId, cached: Cached) {
    UpToDate(s, user, cached.card, cached.expiry - TEN_MINUTES, TEN_MINUTES)
  }

  lemma FromRowUpToDate(s: State, user: UserId, now: Time)
    requires RowsCurrent(s) && now >= TEN_MINUTES && (user in s.rows ==> s.rows[user].computedAt <= now)
    ensures UpToDate(s, user, CardFromRow(s, user, RowFor(s, user, now)), now, TEN_MINUTES)
  {
  }

  lemma SameListSameCard(s: State, t: State, user: UserId, cached: Cached)
    requires Judged(s.reviews, user) == Judged(t.reviews, user) && CachedUpToDate(s, user, cached)
    ensures CachedUpToDate(t, user, cached)
  {
  }

  ghost predicate Survives(s: State, t: State, user: UserId) {
    user in s.cards && user in t.cards && s.cards[user] == t.cards[user]
  }

  /** Step i touched the user's reviews, and the card of state n was there and stayed. */
  ghost predicate OutlivedStep(ws: seq<State>, es: seq<Step>, i: nat, n: nat, user: UserId)
    requires i < |es| && n < |ws| == |es| + 1
  {
    i < n && Touches(ws[i], es[i], user) && forall k | i <= k <= n :: Survives(ws[k], ws[n], user)
  }

  /** The card has outlived a change to the reviews: a failed delete, or the reveal job, which deletes none. */
  ghost predicate Outlived(ws: seq<State>, es: seq<Step>, n: nat, user: UserId)
    requires n < |ws| == |es| + 1
  {
    exists i :: 0 <= i < |es| && OutlivedStep(ws, es, i, n, user)
  }

  lemma OutlivedOneMore(ws: seq<State>, es: seq<Step>, n: nat, user: UserId)
    requires 0 < n < |ws| == |es| + 1
    ensures Outlived(ws, es, n, user) <==>
            && Survives(ws[n - 1], ws[n], user)
            && (Outlived(ws, es, n - 1, user) || Touches(ws[n - 1], es[n - 1], user))
  {
    if Outlived(ws, es, n, user) {
      var i :| 0 <= i < |es| && OutlivedStep(ws, es, i, n, user);
      assert Survives(ws[n - 1], ws[n], user);
      if i < n - 1 {
        assert forall k | i <= k <= n - 1 :: Survives(ws[k], ws[n], user);
        assert OutlivedStep(ws, es, i, n - 1, user);
      }
    }
    if Survives(ws[n - 1], ws[n], user) {
      if Outlived(ws, es, n - 1, user) {
        var i :| 0 <= i < |es| && OutlivedStep(ws, es, i, n - 1, user);
        assert forall k | i <= k <= n :: k == n || Survives(ws[k], ws[n - 1], user);
        assert OutlivedStep(ws, es, i, n, user);
      }
      if Touches(ws[n - 1], es[n - 1], user) {
        assert OutlivedStep(ws, es, n - 1, n, user);
      }
    }
  }

  /** A card that outlived a change counts too few reviews; any other agrees with the current ones. */
  ghost predicate CardTells(ws: seq<State>, es: seq<Step>, n: nat, user: UserId)
    requires n < |ws| == |es| + 1 && user in ws[n].cards
  {
    Tells(ws[n], user, ws[n].cards[user], Outlived(ws, es, n, user))
  }

  /** What a card says of a state: it counts too few reviews, or it agrees with the current ones. */
  ghost predicate Tells(s: State, user: UserId, cached: Cached, outlived: bool) {
    if outlived then cached.card.count < |Judged(s.reviews, user)| else CachedUpToDate(s, user, cached)
  }

  /** A step that the card survives makes it one that outlived a change exactly when it touches the reviews. */
  lemma StepTells(s: State, e: Step, user: UserId, cached: Cached, outlived: bool)
    requires ValidReviews(s) && Tells(s, user, cached, outlived)
    ensures Tells(Apply(s, e), user, cached, outlived || Touches(s, e, user))
  {
    var after := Apply(s, e);
    if Touches(s, e, user) {
      TouchedGrows(s, e, user);
    } else {
      JudgedStays(s, e, user);
      if !outlived {
        SameListSameCard(s, after, user, cached);
      }
    }
  }

  lemma SurvivorTells(ws: seq<State>, es: seq<Step>, n: nat, user: UserId)
    requires 0 < n < |ws| == |es| + 1 && ws[n] == Apply(ws[n - 1], es[n - 1]) && ValidReviews(ws[n - 1])
    requires Survives(ws[n - 1], ws[n], user) && CardTells(ws, es, n - 1, user)
    ensures CardTells(ws, es, n, user)
  {
    OutlivedOneMore(ws, es, n, user);
    StepTells(ws[n - 1], es[n - 1], user, ws[n].cards[user], Outlived(ws, es, n - 1, user));
  }

  /** A card a step writes agrees with the current reviews. */
  lemma StepWritesTruth(s: State, e: Step, user: UserId)
    requires RowsCurrent(s) && e.at >= TEN_MINUTES && (user in s.rows ==> s.rows[user].computedAt <= e.at)
    requires user in Apply(s, e).cards && !Survives(s, Apply(s, e), user)
    ensures Tells(Apply(s, e), user, Apply(s, e).cards[user], false)
  {
    CardsAfterStep(s, e, user);
    FromRowUpToDate(s, user, e.at);
    SameListSameCard(s, Apply(s, e), user, CardWritten(s, user, e.at));
  }

  lemma WrittenTells(ws: seq<State>, es: seq<Step>, n: nat, user: UserId)
    requires IsRun(ws, es) && 0 < n <= |es| && user in ws[n].cards && !Survives(ws[n - 1], ws[n], user)
    ensures CardTells(ws, es, n, user)
  {
    assert ws[n] == Apply(ws[n - 1], es[n - 1]);
    OutlivedOneMore(ws, es, n, user);
    RowsAlwaysCurrent(ws, es, n - 1);
    RowBeforeNow(ws, es, n - 1, user, es[n - 1].at);
    StepWritesTruth(ws[n - 1], es[n - 1], user);
  }

  /** In every reachable state, whatever Redis loses or keeps. */
  lemma {:induction false} CardsAlwaysTell(ws: seq<State>, es: seq<Step>, n: nat, user: UserId)
    requires IsRun(ws, es) && n <= |es| && user in ws[n].cards
    ensures CardTells(ws, es, n, user)
  {
    if n > 0 {
      if Survives(ws[n - 1], ws[n], user) {
        CardsAlwaysTell(ws, es, n - 1, user);
        RunGrows(ws, es, n - 1, n - 1);
        SurvivorTells(ws, es, n, user);
      } else {
        WrittenTells(ws, es, n, user);
      }
    }
  }

  lemma RowBeforeNow(ws: seq<State>, es: seq<Step>, n: nat, user: UserId, now: Time)
    requires IsRun(ws, es) && n <= |es| && (n > 0 ==> es[n - 1].at <= now)
    ensures user in ws[n].rows ==> ws[n].rows[user].computedAt <= now
  {
    if user in ws[n].rows {
      RowsNotFromTheFuture(ws, es, n, user);
    }
  }

  /**
   After any run of submit, like, respond, reveal-job, cancel and read steps, whatever Redis fails to
   do: the count, the trend and the recent reviews served are those of the current table, and the
   rating is the current reviews' rating weighed at most 1200 s ago, exactly unless the answer is a live
   Redis card that outlived a change to the user's reviews.
   */
  lemma ServedReviewsAreCurrentIff(ws: seq<State>, es: seq<Step>, user: UserId, t: Time, readOk: bool)
    requires IsRun(ws, es) && t >= TEN_MINUTES && (|es| > 0 ==> es[|es| - 1].at <= t)
    ensures UpToDate(ws[|es|], user, Served(ws[|es|], user, t, readOk), t, 2 * TEN_MINUTES) <==>
            !(CardIsLive(ws[|es|], user, t, readOk) && Outlived(ws, es, |es|, user))
  {
    var s := ws[|es|];
    var js, card := Judged(s.reviews, user), Served(s, user, t, readOk);
    if CardIsLive(s, user, t, readOk) {
      CardsAlwaysTell(ws, es, |es|, user);
      CardsAlwaysWitnessed(ws, es, |es|, user);
      if !Outlived(ws, es, |es|, user) {
        OlderIsFine(js, card.rating, s.cards[user].expiry - TEN_MINUTES, TEN_MINUTES, t, 2 * TEN_MINUTES);
      }
    } else {
      RowsAlwaysCurrent(ws, es, |es|);
      RowBeforeNow(ws, es, |es|, user, t);
      FromRowUpToDate(s, user, t);
      OlderIsFine(js, card.rating, t, TEN_MINUTES, t, 2 * TEN_MINUTES);
    }
  }

  /** A passenger's review of vehicle 9, its trip just completed. */
  function FirstReview(): Submission {
    Submission(7, 1, 9, PassengerRole, VehicleTarget, 5, false, "",
               Some(Booking(7, "COMPLETED", "COMPLETED", 0.0, 0, 0)), [BookedVehicle(9, 3, Some(TEN_MINUTES))], 0)
  }

  /** A run that serves an old review list: a read, and then a review whose Redis delete fails. */
  lemma FailedDeleteCanServeOldReviews() returns (ws: seq<State>, es: seq<Step>)
    ensures IsRun(ws, es) && ws[0] == State(map[], 0, {}, [], map[], map[])
    ensures |es| == 2 && es[1].event == Submit(FirstReview(), false)
    ensures !UpToDate(ws[2], 9, Served(ws[2], 9, TEN_MINUTES, true), TEN_MINUTES, 2 * TEN_MINUTES)
  {
    var empty := State(map[], 0, {}, [], map[], map[]);
    es := [Timed(TEN_MINUTES, Get(9, true, true)), Timed(TEN_MINUTES, Submit(FirstReview(), false))];
    var read := Apply(empty, es[0]);
    ws := [empty, read, Apply(read, es[1])];
    assert Refusal(read.reviews, FirstReview(), TEN_MINUTES).None? by {
      assert FirstReview().vehicles[0].vehicle == 9 && FirstReview().vehicles[0] in FirstReview().vehicles;
    }
    assert Touches(ws[1], es[1], 9) && Survives(ws[1], ws[2], 9);
    assert OutlivedStep(ws, es, 1, 2, 9);
    ServedReviewsAreCurrentIff(ws, es, 9, TEN_MINUTES, true);
  }

  lemma OlderIsFine(js: seq<Judgement>, rating: int, c: Time, age: int, t: Time, more: int)
    requires RatingOfAge(js, rating, c, age) && c <= t && t - more <= c - age
    ensures RatingOfAge(js, rating, t, more)
  {
  }

  // ---------------------------------------------------------------------------
  // Working deletes: only the age of the rating and the reliability may lag
  // ---------------------------------------------------------------------------

  predicate Clean(e: Step) {
    e.event.Submit? ==> e.event.deleteOk
  }

  ghost predicate AllRevealed(s: State) {
    forall id <- s.reviews :: s.reviews[id].revealedAt.Some?
  }

  /** Reviews are revealed on submission, so the reveal job never has anything to do. */
  lemma {:induction false} NothingEverHidden(ws: seq<State>, es: seq<Step>, n: nat)
    requires IsRun(ws, es) && AllRevealed(ws[0]) && n <= |es|
    ensures AllRevealed(ws[n])
  {
    if n > 0 {
      NothingEverHidden(ws, es, n - 1);
      assert ws[n] == Apply(ws[n - 1], es[n - 1]);
    }
  }

  /** With working deletes and nothing hidden, a card that survives a step is of untouched reviews. */
  lemma SurvivorIsUntouched(s: State, e: Step, user: UserId)
    requires AllRevealed(s) && Clean(e) && Survives(s, Apply(s, e), user)
    ensures !Touches(s, e, user)
  {
  }

  lemma {:induction false} NothingOutlived(ws: seq<State>, es: seq<Step>, n: nat, user: UserId)
    requires IsRun(ws, es) && AllRevealed(ws[0]) && (forall e <- es :: Clean(e)) && n <= |es|
    ensures !Outlived(ws, es, n, user)
  {
    if n > 0 {
      NothingOutlived(ws, es, n - 1, user);
      NothingEverHidden(ws, es, n - 1);
      OutlivedOneMore(ws, es, n, user);
      assert ws[n] == Apply(ws[n - 1], es[n - 1]);
      if Survives(ws[n - 1], ws[n], user) {
        SurvivorIsUntouched(ws[n - 1], es[n - 1], user);
      }
    }
  }

  /** With working deletes every card in Redis agrees with the current reviews. */
  lemma CardsAlwaysUpToDate(ws: seq<State>, es: seq<Step>, n: nat, user: UserId)
    requires IsRun(ws, es) && AllRevealed(ws[0]) && (forall e <- es :: Clean(e)) && n <= |es| && user in ws[n].cards
    ensures CachedUpToDate(ws[n], user, ws[n].cards[user])
  {
    NothingOutlived(ws, es, n, user);
    CardsAlwaysTell(ws, es, n, user);
  }

  /** With working deletes, then, whichever tier answers serves the current reviews. */
  lemma ServedReviewsAreCurrent(ws: seq<State>, es: seq<Step>, user: UserId, t: Time, readOk: bool)
    requires IsRun(ws, es) && AllRevealed(ws[0]) && forall e <- es :: Clean(e)
    requires t >= TEN_MINUTES && (|es| > 0 ==> es[|es| - 1].at <= t)
    ensures UpToDate(ws[|es|], user, Served(ws[|es|], user, t, readOk), t, 2 * TEN_MINUTES)
  {
    NothingOutlived(ws, es, |es|, user);
    ServedReviewsAreCurrentIff(ws, es, user, t, readOk);
  }
}
