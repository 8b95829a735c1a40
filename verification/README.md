# A verified model of the Convoy services

Convoy rents vehicles with drivers. Behind its gateway a handful of services keep the state that matters:
a catalog of vehicles with date blocks, a review and reputation service, a KYC service, an order service
for trips of several vehicles, and the arithmetic of carts, promo codes, orders, cancellations and owner
earnings. This project models that state and proves what the services promise about it.

Each part has the same shape. A module gives the tables as values and every operation as one atomic step
on them (`Mutate`, `Apply`, `Do`), and proves theorems about single steps and about all runs. A second
module holds the service as it is written: a class whose fields are the tables and caches, whose methods
assign to them and loop, each method proved equal to its step. So a theorem about runs is a theorem about
the imperative services. What a step means is stated a second time, in other terms than it is defined in:
criterion by criterion for searches (`Searches`), day by day for blocks (`Availability`), review by review
for ratings (`Ratings`), field by field for trips (`Moves`), and in the contracts of the other methods.

| part | values and theorems | the service |
|---|---|---|
| catalog, availability flags and search results | `Catalog.dfy`, `Availability.dfy`, `AvailabilityCache.dfy`, `Searches.dfy` | `CatalogService.dfy` |
| review pages | `Reviews.dfy`, `ReviewPages.dfy`, `PagesOverRuns.dfy` | |
| reputation scorecard, reviews and cancellations | `Reputation.dfy`, `Ratings.dfy`, `ReviewRules.dfy`, `Cancellations.dfy` | `RatingService.dfy` |
| KYC records, reviews and the overall status | `Kyc.dfy` | `KycService.dfy` |
| owners, drivers and trips of several vehicles, and their cancellations | `Fleet.dfy`, `Trips.dfy`, `Moves.dfy`, `Bookings.dfy` | `FleetService.dfy` |
| prices, promo codes, cart, order, balances | `Pricing.dfy`, `Offers.dfy`, `Checkout.dfy` | `CheckoutService.dfy` |
| owner earnings | `Earnings.dfy` | (methods in the same module) |

`Wrappers.dfy`, `Calendar.dfy`, `Runs.dfy` and `Text.dfy` are shared. `dafny verify dfyconfig.toml` checks
everything.

## Conventions

- A service method is one atomic step. A run is a sequence of states and events, `ws[i + 1]` being the
  state that event `i` makes of `ws[i]`; theorems hold for every run of every length.
- A save writes exactly the given row. Generated ids are serial numbers.
- Instants are integer milliseconds, but a review's stamp is in microseconds, as the database keeps it.
  Dates are day numbers, `Math.round(x)` is the floor of `x + 1/2`,
  money is integer rupees, integer paise or exact reals, and `toFixed(2)` rounds halves away from zero.
- What the code cannot know is an input of the step: which row an unordered `findOne` returns (any
  matching one), the order an unordered `find` returns rows in (any order), which Redis or gRPC calls
  fail, what a failing cache clear leaves behind (anything), trust checks, plate lookups and the clock.
- `reach` in a listing stands for the set of pickup points within a vehicle's service radius.

## What the proofs found

- With reviews stamped in microseconds a walk over review pages can skip reviews, because the cursor is
  printed in whole milliseconds. `ReviewPages.FullWalkSeesAllIff` says exactly when it does not, and
  `ReviewPages.OriginalsSeenOnceIff` which review is skipped while others arrive.
- The rating README describes blind reviews. `submitReview` reveals a review at once, so the reveal job
  never finds one to reveal (`Reputation.NothingEverHidden`). That it does not delete the Redis card is
  therefore harmless.
- The rating README gives the Excellent badge for a late rate of 0%. The rate is rounded first, so a user
  keeps the badge with fewer than one late cancellation in 20000 (`Cancellations.ExcellentIff`).
- `cancelBooking` asks for a payment status `PAID`, and an order only ever says `PENDING` or `COMPLETED`.
  So over all runs of orders and cancellations no cancellation is late or costs anything, and everybody
  stays Excellent (`Bookings.CancellingIsAlwaysFree`). The penalty ladder is proved for whatever status
  the booking service answers.
- Cancelled is not final. The steps that set an order's status do not look at the one it has, so the owner
  can accept a cancelled order, which can then be cancelled again (`Bookings.ReopensIff`, with the steps and
  their guards in `Moves.OrderInto`; a run in `Bookings.OrderCanBeCancelledTwice`).
- A booking is reviewed once, not once a vehicle: of a booking of several vehicles all but one can never
  be reviewed (`ReviewRules.ReviewAcceptedIff`, and a run in `ReviewRules.SecondVehicleIsRefused`).
- A percentage promo above 100 can take more off the discount line than off the total
  (`Checkout.OrderAddsUpIff`, and a run in `Checkout.OrderCanFailToAddUp`).
- An accepted order is always what the cart showed (`Checkout.OrderMatchesCart`), unless fees are
  configured negative: only then can a cart cost nothing, the case in which the cart ignores a code that
  the order applies (`Checkout.OrderMatchesCartIff`, and a run in `Checkout.OrderCanDifferFromCart`).
- A cart stores that its price lock ends after an hour, and nothing reads that: an order charges the
  prices quoted when its vehicles were added, however long ago (`Checkout.OrdersChargeTheQuotes`).
- `calculatePricing` reads a configured owner's share of the platform fee and does not use it: the owner
  bears what the passenger does not (`Pricing.PriceIsMeant`).
- `payBalance` splits the undiscounted prices, so with a promo the balances exceed the reported remaining
  amount by the discount (`Checkout.BalancesCoverTheOrderIff`, and a run in
  `Checkout.BalancesCanExceedTheRemainder`).
- An offer "only valid for your first booking" looks at uses of codes, not at bookings: a user who has
  only booked without a code still gets it (`Checkout.FirstBookingCodeIff`, and a run in
  `Checkout.SecondBookingCanUseTheFirstBookingCode`).
- Block-all and then unblock-all removes older OWNER_BLOCKED blocks as well. `Catalog.BlockAllThenUnblockAll`
  says exactly when that changes an availability answer, and `Catalog.UnblockingCanFreeAnotherDay` is a
  run in which it does.
- With no review hidden, a failed Redis delete, which the services swallow, is the only way to a scorecard
  with an old review list, and for at most ten minutes (`Reputation.ServedReviewsAreCurrentIff`,
  `Reputation.ServedIsRecent`, and a run in `Reputation.FailedDeleteCanServeOldReviews`).
- `assignDriver` checks the defaulted assignment type but branches on the raw one: without a type, or with
  an unknown one, the vehicle goes to the platform pool, and keeps the driver it had. An owner who asks
  for the pool by name is always refused, so that is the only way into it (`Fleet.ChoiceOfThePoolIff`,
  `Fleet.InThePoolIff`, and a run in `Fleet.PooledVehicleCanHaveADriver`).
- `verifyOtp` counts attempts down and then answers that a new code must be requested, but never refuses
  a right code for it (`Trips.GetsOnTheRoadIff`, and a run in `Trips.FourthCodeCanStart`).
- Several owner and driver steps rewrite a vehicle's status without looking at it; each can break the rule
  that a trip starts with the whole fleet, and `Fleet.TakingBackKeepsTogetherIff` and
  `Fleet.StartTripKeepsTogetherIff` say exactly when. `Fleet.CancellingCanSplitTheFleet` and
  `Fleet.StartingCanSplitTheFleet` are runs that do.

## Model

The theorems come first, part by part, down to the earnings. The rows after them are the methods of the
services: each is proved to make exactly the change it names and to leave everything else alone.

| member | source | states |
|---|---|---|
| Catalog.MutateKeepsValid | apps/search/src/service/catalog.service.ts:144-676 | every catalog operation keeps ids fresh, registrations unique and every block's first day before or on its last |
| Catalog.ChangeIsLocal | apps/search/src/service/catalog.service.ts:144-676 | no operation changes the availability, for any range, of a vehicle whose keys it does not clear |
| Catalog.FreeDayByDay | apps/search/src/service/catalog.service.ts:594-639 | with reachable blocks a range is free iff each of its days is |
| Catalog.OverlapIsACommonDay | apps/search/src/service/catalog.service.ts:624-638 | the two-comparison overlap test holds iff some day lies in both ranges |
| Catalog.FreeSplits | apps/search/src/service/catalog.service.ts:594-639 | a range is free iff both of its parts are |
| Catalog.BlockAllThenUnblockAll | apps/search/src/service/catalog.service.ts:484-592 | block-all with the default reason and then unblock-all restores the blocks iff the owner had no OWNER_BLOCKED block before, and every availability answer for a range iff each such block was on a vehicle that was not free anyway or on days that other blocks cover |
| Catalog.UnblockingCanFreeAnotherDay | apps/search/src/service/catalog.service.ts:559-592 | a run from an empty catalog: an owner blocks day 5, then blocks all on day 8 and unblocks all, and the vehicle is free on day 5 |
| Availability.AllowedIff | apps/search/src/service/catalog.service.ts:144-676 | an operation goes through iff it is allowed: owners on their own vehicles, the admin on any, blocks and going online only with an ACTIVE one, numbers not in use |
| Availability.FreeAfterIff | apps/search/src/service/catalog.service.ts:144-676 | after every allowed operation a vehicle is free for a range iff it is then ACTIVE and online and none of the days is then blocked, each said in terms of the state before and the request |
| Availability.StandingAfter | apps/search/src/service/catalog.service.ts:144-446 | vehicles go only by deletion, and status and online flag change only by the operations that give them, to the value given |
| Availability.BlocksMade | apps/search/src/service/catalog.service.ts:448-531 | blocking makes one block for each vehicle concerned, from the first day to the last with the given reason and booking, and leaves the others |
| Availability.NewRegistration | apps/search/src/service/catalog.service.ts:185-216 | an unknown number makes a draft row, offline, with default plate and prices |
| Availability.DetailsAfter | apps/search/src/service/catalog.service.ts:144-676 | owner, number, listing, plate and tariff change only by the operations that give them a value, and to that value |
| AvailabilityCache.RunKeepsValid | apps/search/src/service/catalog.service.ts:144-676 | the tables stay valid in every reachable state, whatever the caches do |
| AvailabilityCache.CachesAlwaysExact | apps/search/src/service/catalog.service.ts:47-67 | with working invalidation, in every reachable state every flag equals the recomputed availability and every cached search lists what an uncached one would |
| AvailabilityCache.AnswerRefinesTheTables | apps/search/src/service/catalog.service.ts:594-639 | isVehicleAvailable refines the uncached query over all runs, whichever cache reads fail |
| AvailabilityCache.SearchRefinesTheTables | apps/search/src/service/search.service.ts:19-147 | a dated search returns exactly the vehicles of an uncached search over all runs |
| Searches.SearchListsIff | apps/search/src/service/search.service.ts:40-130 | after any run with working invalidation a search for given days lists exactly the ACTIVE, online vehicles in reach that have the category, the seats, the colour and the AC asked for and are blocked on none of the days |
| Searches.AcSplitsTheSearch | apps/search/src/service/search.service.ts:98-105 | the searches with and without AC partition the one that does not ask |
| Searches.MoreSeatsFewerVehicles | apps/search/src/service/search.service.ts:71-87 | asking for more seats never adds a vehicle, and asking for none is not asking |
| Searches.ColorIgnoresCase | apps/search/src/service/search.service.ts:89-96 | colours that differ in letter case find the same vehicles |
| AvailabilityCache.AnswerIsKept | apps/search/src/service/catalog.service.ts:594-639 | an answer written at t is given again until t + 300 s and no longer; other entries stay |
| AvailabilityCache.ResultIsKept | apps/search/src/service/search.service.ts:20-28 | a result written at t is given again until t + 120 s and no longer |
| AvailabilityCache.UnclearedChangeKeepsMembership | apps/search/src/service/catalog.service.ts:641-676 | setPricing and updatePlateType, which clear no cache, change neither the vehicles of any search nor anything of a row but tariff and plate |
| AvailabilityCache.EntriesAlwaysWitnessed | apps/search/src/service/catalog.service.ts:47-67 | with invalidation failing at will, every cache entry is what the tables gave when it was computed, at most one timeout before it expires |
| AvailabilityCache.AnswerIsBoundedStale | apps/search/src/service/catalog.service.ts:594-639 | every isVehicleAvailable answer equals the tables' answer at some instant of the last 300 s, whatever Redis loses or keeps |
| AvailabilityCache.SearchIsBoundedStale | apps/search/src/service/search.service.ts:20-25 | every search answer is the result of an instant of the last 120 s, from availability of the 300 s before it |
| ReviewPages.FoundRows | apps/rating/src/repositories/Review.repository.ts:71-119 | the finder's rows are the newest revealed reviews of the reviewee and role that come after the cursor, as many as the limit allows, newest first |
| ReviewPages.FoundCursor | apps/rating/src/repositories/Review.repository.ts:118-142 | its cursor is none iff no row was asked for or none is left, otherwise the last row's id and its stamp cut to the millisecond; its total counts all revealed reviews of the reviewee and role |
| ReviewPages.WalkNeverRepeats | apps/rating/src/repositories/Review.repository.ts:78-136 | a walk that follows nextCursor lists rows newest first and none twice, for any stamps |
| ReviewPages.WalkIsCompleteIff | apps/rating/src/repositories/Review.repository.ts:78-136 | a walk returns every row exactly once iff at each page boundary the next row is past the printed cursor |
| ReviewPages.PageCountIsCeiling | apps/rating/src/repositories/Review.repository.ts:118-136 | the number of pages is ceil(total / limit), or one when there is nothing |
| ReviewPages.SafeWalkPageCount | apps/rating/src/repositories/Review.repository.ts:118-136 | a complete walk takes exactly that many pages |
| ReviewPages.FullWalkSeesAllIff | apps/rating/src/repositories/Review.repository.ts:49-143 | for any stamps: a client that follows the finder's cursors gets revealed reviews of the reviewee and role, newest first and none twice, each answer with the full total; it gets all of them iff its boundaries are safe, and then in that many pages; whole-millisecond stamps make them safe |
| ReviewPages.FineStampsCanSkip | apps/rating/src/repositories/Review.repository.ts:124-135 | two reviews of one millisecond, kept in microseconds: the second is never listed |
| ReviewPages.OriginalsSeenOnceIff | apps/rating/src/repositories/Review.repository.ts:78-136 | for any stamps, when reviews are added or revealed between fetches: a review visible at the start is listed by a finished walk iff no page passes it by, that is, ends on a newer row whose printed cursor it is not past; and no review is listed twice |
| ReviewPages.WholeBoundaryLosesNothing | apps/rating/src/repositories/Review.repository.ts:98-104 | a page whose last row has a whole-millisecond stamp passes no review by |
| PagesOverRuns.WalkDuringRunIff | apps/rating/src/repositories/Review.repository.ts:49-143 | the same for pages fetched at any moments of a run of the rating services, with stamps in microseconds |
| ReviewPages.LaterPagesAreOlder | apps/rating/src/repositories/Review.repository.ts:97-116 | over a changing table every row of a page is older than every row of the pages before |
| Reputation.RatingInRange | apps/rating/src/services/Reputation.service.ts:65-81 | the age-weighted rating lies between the lowest and the highest review, rounding included |
| Ratings.NewWeighsAsTwoOld | apps/rating/src/services/Reputation.service.ts:67-81 | a review of at most 30 days moves the rating as two of its kind older than 90 days do, whatever the others |
| Ratings.FiveFadingWeighAsFourNew | apps/rating/src/services/Reputation.service.ts:67-81 | five reviews of 31 to 90 days move it as four of at most 30 days do |
| Ratings.OneAgeIsThePlainMean | apps/rating/src/services/Reputation.service.ts:65-81 | when all are of one age band the rating is their plain mean to two decimals |
| Ratings.NewerMovesTowards | apps/rating/src/services/Reputation.service.ts:67-81 | making one review newer never moves the rating away from that review's own |
| Ratings.TrendIff | apps/rating/src/services/Reputation.service.ts:83-104 | the trend is up, or down, iff the mean of the ten newest is more than a tenth of a star above, or below, that of all, both to two decimals |
| Ratings.JudgedAreTheReviews | apps/rating/src/repositories/Review.repository.ts:145-158 | a computation reads all revealed reviews of the user, newest first, with rating, role, text and stamp |
| Ratings.CardShows | apps/rating/src/services/Reputation.service.ts:35-138 | an answer not from Redis shows the three newest reviews, long texts cut; a computed one counts all of them |
| Ratings.CardIsKept | apps/rating/src/services/Reputation.service.ts:22-60 | a computed answer that is written is given again for 600 s and no longer |
| Ratings.RowIsKept | apps/rating/src/services/Reputation.service.ts:35-60 | without Redis its rating and badge are, from the stored row |
| Reputation.JudgedStays | apps/rating/src/services/Review.service.ts:136-223 | likes, answers, cancellations, reads and submissions for others leave the scorecard's review list as it was |
| Reputation.RunGrows | apps/rating/src/services/Review.service.ts:136-223 | over any run reviews are only added or revealed, and no stamp, reviewee or role changes |
| Reputation.TouchedGrows | apps/rating/src/services/Review.service.ts:136-150 | a submission for a user, or a reveal, shows strictly more reviews of the user |
| Reputation.RowsAlwaysCurrent | apps/rating/src/repositories/Reputation.repository.ts:17-37 | in every reachable state a reputation row is invalidated or is what its stamp's computation gives on today's tables |
| Reputation.FromRow | apps/rating/src/services/Reputation.service.ts:35-119 | the database tier or a fresh computation answers with a card of the current state weighed in the last 600 s |
| Reputation.CardsAlwaysWitnessed | apps/rating/src/services/Reputation.service.ts:50-53 | every Redis card is the card of the state in which it was written |
| Reputation.ServedIsRecent | apps/rating/src/services/Reputation.service.ts:22-138 | whichever tier answers and whatever Redis fails to do, a served card is of a state of the last 600 s with a rating weighed at most 1200 s ago |
| Reputation.CardsAlwaysTell | apps/rating/src/services/Review.service.ts:152-156 | whatever Redis fails to delete, a Redis card that outlived a change to the reviews counts too few, and any other agrees with the current reviews |
| Reputation.ServedReviewsAreCurrentIff | apps/rating/src/services/Reputation.service.ts:22-138 | after any run, whatever Redis fails to do, count, trend and recent reviews served are those of the current table and the rating is at most 1200 s old, iff the answer is not a live Redis card that outlived a change to the reviews |
| Reputation.FailedDeleteCanServeOldReviews | apps/rating/src/services/Review.service.ts:152-156 | a run from empty tables, a read and then a review whose Redis delete fails, after which the old review list is served |
| Reputation.NothingEverHidden | apps/rating/src/services/RevealReviewsJob.service.ts:29-46 | reviews are revealed on submission, so the reveal job never finds one |
| Reputation.CardsAlwaysUpToDate | apps/rating/src/services/Review.service.ts:152-156 | with working deletes every Redis card agrees with the current reviews |
| Reputation.ServedReviewsAreCurrent | apps/rating/src/services/Reputation.service.ts:22-138 | so with working deletes, whichever tier answers, they always are |
| ReviewRules.OneReviewPerBooking | apps/rating/src/services/Review.service.ts:50-150 | in every run from an empty table every review is a passenger's of a vehicle, and no two are of one booking |
| ReviewRules.ReviewAcceptedIff | apps/rating/src/services/Review.service.ts:104-117 | in every such run a submission that meets the other conditions is accepted iff its booking has no review yet, of any of its vehicles |
| ReviewRules.MayReviewIff | apps/rating/src/services/Review.service.ts:49-135 | the other conditions: the passenger of a completed booking reviews a vehicle of it, at most seven days after the last completion, or after the trip's start if none is recorded |
| ReviewRules.SecondVehicleIsRefused | apps/rating/src/services/Review.service.ts:104-117 | a run in which a review of a booking's first vehicle makes one of its second vehicle a duplicate |
| ReviewRules.LikesAreUsers | apps/rating/src/services/Review.service.ts:203-223 | in every run from empty tables a review's like count is the number of users who like it |
| ReviewRules.AnswersStay | apps/rating/src/services/Review.service.ts:161-201 | over any run an answer that was given is never changed |
| ReviewRules.ReviewsWereSubmitted | apps/rating/src/services/Review.service.ts:136-150 | in every run from an empty table each review has the author, subject, rating, text and stamp of one accepted submission, and was revealed then |
| ReviewRules.SubmissionsStay | apps/rating/src/services/Review.service.ts:136-150 | and every accepted submission is in the table from then on |
| Cancellations.DeadlineIsAMidnightBeforeTheTrip | apps/rating/src/services/Cancellation.service.ts:16-30 | the deadline is a UTC midnight, after trip start less 8 days and not after trip start |
| Cancellations.DeadlineIsDaysBefore | apps/rating/src/services/Cancellation.service.ts:16-30 | it is the midnight of the day n days before the trip's, n being half the whole days between booking and trip, at most seven |
| Cancellations.DeadlineIsAfterBooking | apps/rating/src/services/Cancellation.service.ts:16-30 | it is strictly after the booking whenever the trip is at least two days out |
| Cancellations.LaterTripDeadline | apps/rating/src/services/Cancellation.service.ts:16-30 | moving the trip later moves the deadline earlier by at most one day |
| Cancellations.LaterTripCanCostADay | apps/rating/src/services/Cancellation.service.ts:16-30 | and by one day it can |
| Cancellations.PenaltyLadder | apps/rating/src/services/Cancellation.service.ts:81-117 | in any history a user's k-th late cancellation records k-1 offenses and costs half the advance for k = 1, all of it after, and an on-time one nothing |
| Cancellations.ScoreFollowsConduct | apps/rating/src/services/Cancellation.service.ts:143-168 | despite rounding, one more on-time cancellation never lowers the reliability score and one more late one never raises it; others' scores stay |
| Cancellations.RateMonotone | apps/rating/src/services/Cancellation.service.ts:143-148 | rounding to two decimals keeps the order of two late rates |
| Cancellations.ExcellentIff | apps/rating/src/services/Cancellation.service.ts:146-155 | the badge is Excellent iff fewer than one cancellation in 20000 is late, or none |
| Cancellations.BadgeIff | apps/rating/src/services/Cancellation.service.ts:143-175 | each badge and its score, by the share of late cancellations among all |
| Cancellations.Hours | apps/rating/src/services/Cancellation.service.ts:107-112 | the hours before the trip to the nearest hundredth, halves away from zero |
| Kyc.WhatIsRequired | apps/verification/src/verification.service.ts:18-53 | the types a driver, an owner and a vehicle with or without white plates must show, and those mandatory in a review |
| Kyc.CopiesHaveSources | apps/verification/src/verification.service.ts:386-418 | the copy loops only add copies of identity documents of types the record lacked, each from another of the listed records |
| Kyc.CopiedKindsInAnyOrder | apps/verification/src/verification.service.ts:386-418 | in whatever order the records come, the record ends with its own types and every identity type the user holds elsewhere |
| Kyc.CopiesKeepOne | apps/verification/src/verification.service.ts:392-418 | the nested loops never leave two documents of one type |
| Kyc.RunKeepsOnePerType | apps/verification/src/verification.service.ts:113-611 | in every reachable state every record holds at most one document of each type |
| Kyc.SecondAskWritesNothing | apps/verification/src/verification.service.ts:367-442 | a second getVerificationStatus changes nothing and reports the same record, and so the same missing types, whatever the orders of the two lookups |
| Kyc.StatusMoves | apps/verification/src/verification.service.ts:113-954 | every step keeps every record and moves a status only by a complete submission, an admin decision, or a deciding review of a PENDING record |
| Kyc.ReviewOutcome | apps/verification/src/verification.service.ts:738-837 | from PENDING, any sequence of reviews ends VERIFIED iff an approval leaves all mandatory types approved before a mandatory document is rejected, REJECTED iff the other way round, else PENDING |
| Kyc.DecisionsStay | apps/verification/src/verification.service.ts:744-837 | once decided, no review changes anything of a record but its documents |
| Kyc.ApprovingInAnyOrder | apps/verification/src/verification.service.ts:802-819 | approving the mandatory documents in any order verifies the record at the last one and not before |
| KycService.UserKyc | apps/verification/src/verification.service.ts:217-305 | the fold reports the highest status under VERIFIED > PENDING > REJECTED > NONE, from a record that has it, the types missing from all records, and one document of each type held |
| KycService.OrderDoesNotMatter | apps/verification/src/verification.service.ts:237-288 | two listings of the same records give the same status and the same missing types |
| Fleet.DriversAreExplained | apps/booking/src/order/services/order-owner.service.ts:73-181 | over all runs an assigned driver is the owner, one whose trust check with that owner passed, or one who accepted while nobody was assigned; DRIVER_ACCEPTED has a driver, OWNER_AS_DRIVER the owner, TRUSTED_DRIVER a checked one |
| Fleet.NobodyElseDisplaces | apps/booking/src/order/services/order-driver.service.ts:41-60 | no driver, trip, payment or expiry step removes or replaces an assigned driver |
| Moves.StepMoves | apps/booking/src/order/services/order-driver.service.ts:28-422 | every step writes of every vehicle's row exactly the status, driver, type, stamps and reason of the tables by field, each entry under its own guard |
| Moves.RefusedIff | apps/booking/src/order/services/order-owner.service.ts:30-463 | a handler that finds its row succeeds iff it writes a status |
| Moves.StatusIsTheLatest | apps/booking/src/order/services/order-driver.service.ts:28-422 | in every run a row has the status of the latest step that wrote one, and waits for its owner before |
| Moves.StepMovesOrder | apps/booking/src/order/services/order-payment.service.ts:156-334 | every step writes of every order exactly the statuses and the payment of the tables by field; passenger and creation time never change |
| Moves.PlaceAdds | apps/booking/src/order/services/order-creation.service.ts:97-193 | a new order waits for its owners, with one waiting, driverless row for each vehicle |
| Moves.StepLogs | apps/booking/src/order/services/order-owner.service.ts:100-200 | every step appends exactly its own timeline entries |
| Fleet.ChoiceOfThePoolIff | apps/booking/src/order/services/order-owner.service.ts:297-392 | an owner's choice that is not refused puts the vehicle in the platform pool iff it is an assignment that names none of the three types; the vehicle then keeps its driver and waits for one |
| Fleet.InThePoolIff | apps/booking/src/order/services/order-owner.service.ts:30-426 | in every run a vehicle is in the platform pool iff its owner's latest choice named no type |
| Fleet.PooledVehicleCanHaveADriver | apps/booking/src/order/services/order-owner.service.ts:378-381 | a run from an empty database in which a driver stays assigned to a vehicle in the pool |
| Fleet.FleetStaysTogether | apps/booking/src/order/services/order-driver.service.ts:219-234 | in any run of guarded steps, from any moment the order is together, one vehicle in transit means all have arrived, left or finished |
| Fleet.TakingBackKeepsTogetherIff | apps/booking/src/order/services/order-owner.service.ts:240-459 | an owner or driver step that takes a vehicle back keeps that rule iff no other vehicle of the order is in transit |
| Fleet.CancellingCanSplitTheFleet | apps/booking/src/order/services/order-owner.service.ts:428-446 | a run from an empty database in which an owner cancels while the other vehicle of the order is in transit |
| Fleet.StartTripKeepsTogetherIff | apps/booking/src/order/services/order-driver.service.ts:381-409 | startTrip, which has no fleet check, keeps that rule iff all the others have arrived, left or finished |
| Fleet.StartingCanSplitTheFleet | apps/booking/src/order/services/order-driver.service.ts:381-409 | a run from an empty database in which startTrip leaves before the other owner has answered |
| Fleet.TripStepCompletes | apps/booking/src/order/services/order-driver.service.ts:303-318 | of the trip steps only completeVehicleTrip completes an open order, and iff all its vehicles are then complete |
| Fleet.OrderCompletesWithItsLastVehicle | apps/booking/src/order/services/order-driver.service.ts:282-318 | in a run of trip steps an open order has become complete iff, by then, its last vehicle was completed |
| Trips.GetsOnTheRoadIff | apps/booking/src/order/services/order-driver.service.ts:197-262 | in every run a vehicle gets into transit at a step iff its driver calls startTrip, or its fleet has arrived, left or finished and the code given is that of its latest arrival, or the master code, at most 12 hours after it |
| Trips.FourthCodeCanStart | apps/booking/src/order/services/order-driver.service.ts:242-262 | a run in which the right code starts the trip after three wrong ones, the last answered with too many attempts |
| Bookings.AcceptedIff | apps/rating/src/services/Cancellation.service.ts:39-71 | cancelBooking is accepted iff it comes from the order's passenger, or from an owner of one of its vehicles, in that role, while the order is pending, assigned or confirmed |
| Bookings.CancellingIsAlwaysFree | apps/rating/src/services/Cancellation.service.ts:74-117 | over all runs of orders and cancellations every record says no advance was paid and costs nothing, and every user stays Excellent |
| Bookings.ReopensIff | apps/booking/src/order/services/order-query.service.ts:788-807 | a step takes an order out of CANCELLED iff it is one of nine that set an order status, with that step's own guard met |
| Bookings.CancelledTwiceMeansReopened | apps/rating/src/services/Cancellation.service.ts:62-124 | over all runs, between two accepted cancellations of an order, the first of which set its status, one of those steps reopened it |
| Bookings.OrderCanBeCancelledTwice | apps/booking/src/order/services/order-owner.service.ts:30-238 | a run in which the owner accepts a cancelled order and it is cancelled again |
| Fleet.RefundFalls | apps/booking/src/order/services/order-passenger.service.ts:47-65 | the refund of a cancelled order is its percentage of the advance, between nothing and all of it, and no larger closer to the trip |
| Pricing.PriceIsMeant | apps/booking/src/pricing/pricing.service.ts:211-239 | a breakdown is calculatePricing's iff base, whole fee and passenger's share are each the nearest rupee, the owner's share is the rest of the fee, the total is base plus passenger's share less discount, and advance and balance make the total |
| Pricing.FeeIsSplit | apps/booking/src/pricing/pricing.service.ts:212-223 | with a passenger share from 0 to 1 neither side's fee is negative or more than the whole, and the total is not below the base |
| Pricing.PriceIsPositive | apps/booking/src/pricing/pricing.service.ts:212-220 | without negative fees, a base price that rounds to a rupee or more makes a total of a rupee or more |
| Pricing.OrderAdvanceNearSum | apps/booking/src/pricing/pricing.service.ts:222-223 | at 25% the rounded advance of n vehicles together is within (n + 1) / 2 of the sum of their own, and closer from below |
| Pricing.AdvancesOfTwos | apps/booking/src/pricing/pricing.service.ts:222-223 | for an even number n of vehicles of 2 rupees the order's advance is n / 2 below the sum of their own |
| Offers.ValidIff | apps/discount/src/services/Offer.service.ts:78-139 | a code is valid iff it names, in any letter case, an active offer whose minimum and first-booking rule are met; then a percentage takes off the nearest rupee, and a flat value up to the price |
| Offers.DiscountSplitsPriceIff | apps/discount/src/services/Offer.service.ts:122-139 | for a whole price, discount and discounted price add up to it iff the offer is flat or its percentage does not round above the price |
| Offers.OrdinaryOffersSplit | apps/discount/src/services/Offer.service.ts:122-139 | percentages from 0 to 100 and non-negative flat values always do, and take off between nothing and everything |
| Offers.OverHundredPercent | apps/discount/src/services/Offer.service.ts:122-132 | 200% of 100 takes off 200 and leaves 0 |
| Offers.CheckEligibility | apps/discount/src/services/Offer.service.ts:142-165 | lists exactly the active offers whose minimum and first-booking rule the user meets, each accepted by validateCode if its own code finds it |
| Offers.EligibleIffValid | apps/discount/src/services/Offer.service.ts:78-165 | an offer its own code finds is eligible iff validateCode accepts the code |
| Checkout.RunKeepsOk | apps/booking/src/cart/cart.service.ts:164-288 | in every reachable shop every cart item has its price locked, no vehicle is in a cart twice, and every order has well-formed prices, their sum as its original amount and, without a code, as its total, and a quarter of the total as its advance |
| Checkout.ItemsWereAdded | apps/booking/src/cart/cart.service.ts:270-288 | over all runs every cart item is as an earlier accepted addToCart of its vehicle by that user made it, with the price quoted then |
| Checkout.ItemStaysIff | apps/booking/src/cart/cart.service.ts:485-523 | an item leaves the cart iff it is removed, the cart is cleared, an order goes through, or it is the first one an order finds taken |
| Checkout.InCartIff | apps/booking/src/cart/cart.service.ts:164-523 | over all runs an item is in a cart iff it was added and nothing has taken it out since |
| Checkout.SumsAdd | apps/booking/src/cart/cart.service.ts:421-434 | the five sums of two lists of vehicles add up, and of one vehicle they are its own figures |
| Checkout.OrdersChargeTheQuotes | apps/booking/src/order/services/order-creation.service.ts:71-101 | over all runs every order was made by one createOrder from its passenger's cart, and charges for each vehicle the price, figure by figure, that its quote came to when the vehicle was added |
| CheckoutService.CreatedIsOrdered | apps/booking/src/order/services/order-creation.service.ts:30-223 | createOrder goes through iff the cart holds something, all of it is free and the code applies; it then adds one order, with the discount and total of the code's offer and a quarter in advance, records the use, and empties the cart |
| Checkout.OrderMatchesCartIff | apps/booking/src/cart/cart.service.ts:421-465 | in every reachable shop an accepted order has the base, fee, discount, total, advance and balance the cart showed for the code iff there is no code, or the cart costs something, or it costs nothing and the offer does not raise prices |
| Checkout.OrderMatchesCart | apps/booking/src/cart/cart.service.ts:421-465 | when base prices round to a rupee or more and no fee is negative, every accepted order is what the cart showed, for every code |
| Checkout.OrderCanDifferFromCart | apps/booking/src/cart/cart.service.ts:436 | a run in which they differ: a platform fee configured to minus the price, and a flat offer of a negative value |
| Checkout.OrderAddsUpIff | apps/booking/src/order/services/order-creation.service.ts:119-166 | base + gst + fee - discount is the total, and total + promo discount the sum of the vehicles' prices, iff there is no code, a flat offer, or a percentage that does not round above the price |
| Checkout.OrderCanFailToAddUp | apps/booking/src/order/services/order-creation.service.ts:136-151 | a run with a 200% offer in which they do not add up |
| Checkout.BalancesCoverTheOrderIff | apps/booking/src/order/services/order-payment.service.ts:244-252 | advance plus the vehicles' balances is always the undiscounted sum; it is the order total, and the balances the reported remaining amount, iff nothing was taken off |
| Checkout.BalancesCanExceedTheRemainder | apps/booking/src/order/services/order-payment.service.ts:244-252 | a run with a flat promo in which the balance is larger than the reported remaining amount by the discount |
| Checkout.AdvanceNearVehicleAdvances | apps/booking/src/order/services/order-creation.service.ts:125-154 | for every reachable order without a code at 25%, the advance is within (n + 1) / 2 of the sum of its n vehicles' own |
| Checkout.UsageCountsDiscountedOrders | apps/booking/src/order/services/order-creation.service.ts:214-221 | when every use is recorded, the usage history of a user counts exactly the user's discounted orders |
| Checkout.FirstBookingCodeIff | apps/discount/src/services/Offer.service.ts:109-120 | over all such runs an active first-booking code whose minimum is met is accepted iff the user has no discounted order yet |
| Checkout.SecondBookingCanUseTheFirstBookingCode | apps/discount/src/services/Offer.service.ts:109-120 | a run in which a user who has booked without a code books again with a first-booking code |
| Earnings.TotalOfOne | apps/booking/src/order/services/order-query.service.ts:824-850 | a ride counts, with its price, iff it was completed in the year, and in the month if one is asked for |
| Earnings.TotalsAdd | apps/booking/src/order/services/order-query.service.ts:824-850 | the totals of two lists of rides are those of the joined list |
| Earnings.OwnerEarnings | apps/booking/src/order/services/order-query.service.ts:809-876 | the loop's totals and its map by vehicle: each entry is its vehicle's own total, every vehicle with a counted ride has one, and they sum to the totals |
| Earnings.EarningsStatement | apps/booking/src/order/services/order-query.service.ts:916-944 | the statement's totals are those of month 0 |
| Earnings.ByVehicleSplitsTheTotal | apps/booking/src/order/services/order-query.service.ts:824-850 | the map by vehicle partitions the totals |
| Earnings.MonthsMakeTheYear | apps/booking/src/order/services/order-query.service.ts:829-850 | the twelve months' gross and trips sum to the year's |
| Earnings.MonthlyFeesNearAnnual | apps/booking/src/order/services/order-query.service.ts:852-853 | the twelve rounded fees differ from the annual fee by at most 6 paise |
| Earnings.MonthlyFeesCanBeSixApart | apps/booking/src/order/services/order-query.service.ts:852-853 | and 6 paise is reached |
| CatalogService.Service.ClearVehicleCaches | apps/search/src/service/catalog.service.ts:47-67 | removes every cached search and every flag of the vehicle, except what a failing clear leaves |
| CatalogService.Service.RegisterVehicle | apps/search/src/service/catalog.service.ts:144-216 | updates the owner's row or creates a draft one, refuses another owner's registration, and clears the vehicle's caches |
| CatalogService.Service.UpdateVehicle | apps/search/src/service/catalog.service.ts:308-326 | merges the given fields, the owner included, after the ownership, status and uniqueness checks, and clears the vehicle's caches |
| CatalogService.Service.DeleteVehicle | apps/search/src/service/catalog.service.ts:328-342 | soft-deletes an owned vehicle and clears its caches |
| CatalogService.Service.ActivateVehicle | apps/search/src/service/catalog.service.ts:344-359 | makes the vehicle ACTIVE and online and clears its caches |
| CatalogService.Service.SuspendVehicle | apps/search/src/service/catalog.service.ts:361-384 | makes the vehicle SUSPENDED and offline and clears its caches |
| CatalogService.Service.UpdateVehicleOnlineStatus | apps/search/src/service/catalog.service.ts:386-408 | switches an owned ACTIVE vehicle and clears its caches |
| CatalogService.Service.UpdateOwnerVehiclesAvailability | apps/search/src/service/catalog.service.ts:410-446 | switches all the owner's vehicles, only ACTIVE ones on, and clears one vehicle's caches after another |
| CatalogService.Service.BlockVehicle | apps/search/src/service/catalog.service.ts:448-482 | adds one block to an owned ACTIVE vehicle and clears its caches |
| CatalogService.Service.BlockAllOwnerVehicles | apps/search/src/service/catalog.service.ts:484-531 | adds one block to each ACTIVE vehicle of the owner and clears their caches |
| CatalogService.Service.UnblockVehicle | apps/search/src/service/catalog.service.ts:533-557 | removes a block of an owned vehicle and clears its caches; crashes on a soft-deleted vehicle |
| CatalogService.Service.UnblockAllOwnerVehicles | apps/search/src/service/catalog.service.ts:559-592 | removes OWNER_BLOCKED blocks and clears caches vehicle by vehicle, in any order |
| CatalogService.Service.UpdatePlateType | apps/search/src/service/catalog.service.ts:641-656 | writes the plate columns and clears nothing |
| CatalogService.Service.SetPrices | apps/search/src/service/catalog.service.ts:658-676 | writes the given tariff columns and clears nothing |
| CatalogService.Service.IsVehicleAvailable | apps/search/src/service/catalog.service.ts:594-639 | returns the live flag or else the tables' answer, and writes only its own flag |
| CatalogService.Service.AskEach | apps/search/src/service/search.service.ts:116-134 | asking vehicle by vehicle, in any order, gives the rows and flags of the search step |
| CatalogService.Service.SearchVehicles | apps/search/src/service/search.service.ts:19-147 | answers the cached rows, or the rows that suit every criterion and are said to be free, and writes one new entry |
| RatingService.Service.SubmitReview | apps/rating/src/services/Review.service.ts:26-159 | refuses with the first reason that applies, or inserts the review as submitted, revealed, and invalidates both tiers |
| RatingService.Service.LikeReview | apps/rating/src/services/Review.service.ts:203-223 | one like a user, and the new number of likes |
| RatingService.Service.RespondToReview | apps/rating/src/services/Review.service.ts:161-201 | the reviewee of a revealed review without an answer gives its only one |
| RatingService.Service.RunRevealJob | apps/rating/src/services/RevealReviewsJob.service.ts:29-46 | revealing and invalidating one by one, in any order, reveals exactly what is due |
| RatingService.Service.CancelBooking | apps/rating/src/services/Cancellation.service.ts:32-141 | adds the record decided on the history, invalidates the row, and sends the CANCELLED status to the booking service iff it succeeds |
| RatingService.Service.GetReputation | apps/rating/src/services/Reputation.service.ts:22-138 | answers the live card, the fresh row or a computation, and writes what each tier writes |
| RatingService.Service.Invalidate | apps/rating/src/repositories/Reputation.repository.ts:30-37 | stamps the row with the epoch and changes nothing else |
| RatingService.LastCompletion | apps/rating/src/services/Review.service.ts:116-124 | a latest completion time of the booked vehicles, or the trip start |
| RatingService.Weigh | apps/rating/src/services/Reputation.service.ts:62-104 | the loop computes the weighted rating and the trend |
| KycService.Service.GetUserKycStatus | apps/verification/src/verification.service.ts:217-305 | the named record is the user's and has the reported status, which no record of the user outranks; the missing types are those the user holds nowhere; the documents are one of each type held |
| KycService.Service.UploadForVehicle | apps/verification/src/verification.service.ts:113-173 | the document replaces the one of its type or joins the others, pending again, in the PENDING or a new record of the vehicle, and a report of the newest one after it |
| KycService.Service.UploadForRole | apps/verification/src/verification.service.ts:113-176 | the same for the role's record, then what getVerificationStatus writes, and a report of the record it picks |
| KycService.Service.UploadUserKyc | apps/verification/src/verification.service.ts:178-212 | the same for the roleless record, and the overall status after it |
| KycService.Service.GetVerificationStatus | apps/verification/src/verification.service.ts:367-442 | picks the user's newest record in the role or creates one, adds the identity types the user holds elsewhere, changes nothing else, and reports it |
| KycService.Service.GetVehicleVerificationStatus | apps/verification/src/verification.service.ts:447-515 | reports the newest record of the vehicle and role, or none, and the types its plate requires and it lacks |
| KycService.Service.CopyDocs | apps/verification/src/verification.service.ts:392-418 | the nested loops, type snapshot and pushes included, are the copy function |
| KycService.Service.SubmitUserKyc | apps/verification/src/verification.service.ts:307-362 | the roleless or else the newest personal record becomes PENDING as of now iff it holds every identity type, and otherwise nothing changes; tells if there is none |
| KycService.Service.SubmitKycDoc | apps/verification/src/verification.service.ts:521-611 | the role's record gains the identity types held elsewhere, and becomes PENDING as of now iff it then holds every required type; no other record changes |
| KycService.Service.SubmitVehicleDocs | apps/verification/src/verification.service.ts:617-687 | the vehicle's record becomes PENDING as of now iff it holds every type its plate requires, and otherwise nothing changes; tells if there is none |
| KycService.Service.ReviewDocument | apps/verification/src/verification.service.ts:720-849 | gives the document the verdict; a PENDING record is verified iff that was an approval and every mandatory type is approved, rejected iff it rejected a mandatory type, with admin, time and reason |
| KycService.Service.ApproveVerification | apps/verification/src/verification.service.ts:907-954 | verifies the record and approves its pending documents one by one |
| KycService.Service.RejectVerification | apps/verification/src/verification.service.ts:851-905 | rejects the record and its pending documents one by one |
| FleetService.Service.CreateOrder | apps/booking/src/order/services/order-creation.service.ts:97-193 | a new order with one row without a driver for each vehicle |
| FleetService.Service.CompleteOrder | apps/booking/src/order/services/order-driver.service.ts:345-379 | completes the order and each of its vehicles |
| FleetService.Service.CompletePayment | apps/booking/src/order/services/order-payment.service.ts:281-334 | marks the order paid, completes it and each of its vehicles, and logs it |
| FleetService.Service.ExpireUnanswered | apps/booking/src/order/services/booking-expiry.service.ts:52-123 | cancels exactly the orders still waiting since before the cutoff and rejects their waiting vehicles, one log entry an order |
| FleetService.Service.Arrive | apps/booking/src/order/services/order-driver.service.ts:135-195 | marks arrival with a new code, and counts the order's vehicles and those that have arrived |
| FleetService.Service.VerifyOtp | apps/booking/src/order/services/order-driver.service.ts:197-280 | refuses with the first reason that applies, counting attempts down, or starts the trip |
| FleetService.Service.CompleteVehicleTrip | apps/booking/src/order/services/order-driver.service.ts:282-343 | completes the vehicle, counts the order's vehicles and the complete ones, and completes the order iff none remains; the driver's fees are 300 a day for at least one day, split without loss into 2% for the platform and the rest |
| FleetService.Service.PassengerCancelOrder | apps/booking/src/order/services/order-passenger.service.ts:18-89 | cancels an existing order; of a paid order's advance it refunds all more than 48 hours before the pickup, half from 24 hours on, else nothing |
| FleetService.Service.OwnerAccept | apps/booking/src/order/services/order-owner.service.ts:30-238 | refuses with the first reason that applies or assigns the owner or a trusted driver; an unknown preference leaves a timeline entry |
| FleetService.Service.OwnerReject | apps/booking/src/order/services/order-owner.service.ts:240-277 | rejects with a reason, whatever the status was |
| FleetService.Service.AssignDriver | apps/booking/src/order/services/order-owner.service.ts:279-393 | checks the defaulted type, twice for a trusted driver, and branches on the raw one |
| FleetService.Service.OwnerRemoveDriver | apps/booking/src/order/services/order-owner.service.ts:395-426 | clears driver, type and proxy of an owned vehicle |
| FleetService.Service.OwnerCancelVehicle | apps/booking/src/order/services/order-owner.service.ts:428-463 | cancels with a reason, whatever the status was |
| FleetService.Service.DriverAccept | apps/booking/src/order/services/order-driver.service.ts:28-66 | refuses a taken or another's trip, or accepts and informs the order |
| FleetService.Service.DriverReject | apps/booking/src/order/services/order-driver.service.ts:106-133 | rejects with a reason, whatever the status was |
| FleetService.Service.StartTrip | apps/booking/src/order/services/order-driver.service.ts:381-422 | checks the driver only and starts |
| FleetService.Service.ConfirmPayment | apps/booking/src/order/services/order-payment.service.ts:156-216 | confirms an unpaid order and logs it; nothing on one already paid |
| FleetService.Service.PayBalance | apps/booking/src/order/services/order-payment.service.ts:218-267 | marks the order paid and the vehicle complete and logs it |
| FleetService.Service.UpdateBookingStatus | apps/booking/src/order/services/order-query.service.ts:788-807 | overwrites both statuses of an existing order |
| CheckoutService.AddUp | apps/booking/src/cart/cart.service.ts:421-434 | the accumulating loop computes the five sums |
| CheckoutService.Service.AddToCart | apps/booking/src/cart/cart.service.ts:164-290 | goes through iff the vehicle is known, active, in reach, free and not in the cart; then adds it with the price its quote comes to, figure by figure |
| CheckoutService.Service.ViewCart | apps/booking/src/cart/cart.service.ts:341-483 | the sums of the cart, less what the code's offer takes off iff the code applies and the cart costs something, a quarter of the total in advance |
| CheckoutService.Service.RemoveCartItem | apps/booking/src/cart/cart.service.ts:485-508 | removes the item and no other, and returns the figures of the cart that is left |
| CheckoutService.Service.ClearCart | apps/booking/src/cart/cart.service.ts:510-523 | empties this cart and no other, and tells how many items it held |
| CheckoutService.Service.CreateOrder | apps/booking/src/order/services/order-creation.service.ts:30-223 | removes the first unavailable vehicle and refuses, or refuses an invalid code, or stores the order, records the code's use and empties the cart |
| CheckoutService.Service.PayBalance | apps/booking/src/order/services/order-payment.service.ts:244-252 | paid and wallet amounts are together what remains of the vehicle's price after its share of the advance |
| CheckoutService.Service.CreateOffer | apps/discount/src/services/Offer.service.ts:28-45 | stores a new offer active, with no condition where none is given; refuses a code in use |
| CheckoutService.Service.ToggleOffer | apps/discount/src/services/Offer.service.ts:47-62 | switches an existing offer and counts the uses of its code in any letter case |

## Left out

- Interleavings inside one method: the services take no locks, and every claim is about atomic steps.
- TypeORM's cascaded saves of loaded relations, and soft-delete internals beyond the registration index.
- Rating-order review pages: their cursor is written with three fields and read with two.
- Orders of equal submission stamps in the scorecard query: ties are taken in id order.
- Distances and SQL geography, RTO lookups, notifications, chat, OTP delivery, calls, sockets and the gateway.
- Base prices from seats, days, distance and trip type: pricing starts at the base price.
- The star string, mocked payouts, the drivers' earnings history, disputes and analytics.
- Floating-point error: rates, percentages and `toFixed` are exact here.
- Offer codes that differ only in letter case: the lookup takes the first in table order.
- The KYC error for a role without requirements: both roles have some.
- The plate lookup of ownerAccept and assignDriver, whose result the code never uses.
- CatalogService.Service.UpdateVehicle: a patch that names an id or a list of blocks is not modelled.
- The advance and the first pickup of an order: they are inputs of its cancellation and of its refund.
- FleetService.Service.UpdateBookingStatus: statuses outside the order's enum, which the code would store too.
- FleetService.Service.PayBalance: the statuses only; its amounts are CheckoutService.Service.PayBalance.
- Odometer readings, addresses, response deadlines and display names.
- Local time: months and years of completed rides are inputs, as the server's time zone decides them.
