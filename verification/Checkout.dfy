/**
 From cart to order: prices are locked when a vehicle enters the cart, the cart shows sums of them, and
 an order charges the same sums. Proved for every reachable shop: the order agrees with the cart that
 was shown, and exactly when; its figures add up, and exactly when; and advance and balances cover it.
 A missing cart and an empty one are the same here.
 */
module Checkout {
  import opened Wrappers
  import opened Pricing
  import opened Offers

  type VehicleId = nat
  type ItemId = nat

  /** The locked columns repeat the snapshot; `snapshot` is the stored price breakdown. */
  datatype Item = Item(id: ItemId, vehicle: VehicleId, lockedBase: int, lockedTotal: int, snapshot: Option<Breakdown>)

  datatype Summary = Summary(
    vehicles: nat, base: int, gst: int, fee: int, discount: real, total: real, advance: int, balance: real)

  /** `prices` are the breakdowns of the order's vehicles, `original` their sum before any promo. */
  datatype Order = Order(
    passenger: UserId, original: int, discount: real, total: real, advance: int, code: string,
    breakdown: Summary, prices: seq<Breakdown>)

  datatype Shop = Shop(
    carts: map<UserId, seq<Item>>, nextItem: ItemId, offers: seq<Offer>, usage: seq<Usage>, orders: seq<Order>)

  /** What the catalog and the pricing inputs say of a vehicle that is added to a cart. */
  datatype Quote = Quote(known: bool, active: bool, inReach: bool, free: bool, base: real, rates: Rates)

  datatype Error =
    | VehicleNotFound | VehicleUnavailable(vehicle: VehicleId) | OutOfServiceArea | AlreadyInCart | ItemNotFound
    | EmptyCart | InvalidPromo(note: Note) | OfferNotFound | DuplicateCode | OrderNotFound

  /** Which calls to the offer service succeed: the validation of the code, the record of its use. */
  datatype PromoIO = PromoIO(validates: bool, records: bool)

  datatype Outcome = Outcome(next: Shop, failure: Option<Error>)

  datatype Event =
    | AddToCart(user: UserId, vehicle: VehicleId, quote: Quote)
    | RemoveCartItem(user: UserId, item: ItemId)
    | ClearCart(user: UserId)
    | CreateOrder(user: UserId, code: string, taken: set<VehicleId>, recalculated: map<ItemId, Breakdown>, io: PromoIO)
    | CreateOffer(form: OfferForm)
    | ToggleOffer(place: nat, active: bool)

  // ---------------------------------------------------------------------------
  // Sums
  // ---------------------------------------------------------------------------

  datatype Sums = Sums(base: int, gst: int, fee: int, discount: int, total: int)

  function Add(s: Sums, b: Breakdown): Sums {
    Sums(s.base + b.base, s.gst + b.gst, s.fee + b.fee, s.discount + b.discount, s.total + b.total)
  }

  function SumsOf(bs: seq<Breakdown>): Sums {
    if bs == [] then Sums(0, 0, 0, 0, 0) else Add(SumsOf(bs[..|bs| - 1]), bs[|bs| - 1])
  }

  /** One vehicle's figures are its breakdown's, and the figures of two lists add up. */
  lemma {:induction false} SumsAdd(a: seq<Breakdown>, b: seq<Breakdown>)
    ensures
      var x, y := SumsOf(a), SumsOf(b);
      SumsOf(a + b) == Sums(x.base + y.base, x.gst + y.gst, x.fee + y.fee, x.discount + y.discount, x.total + y.total)
    ensures forall p: Breakdown :: SumsOf([p]) == Sums(p.base, p.gst, p.fee, p.discount, p.total)
  {
    if b == [] {
      assert a + b == a;
    } else {
      assert (a + b)[..|a + b| - 1] == a + b[..|b| - 1];
      SumsAdd(a, b[..|b| - 1]);
    }
    forall p: Breakdown ensures SumsOf([p]) == Sums(p.base, p.gst, p.fee, p.discount, p.total) {
      assert [p][..0] == [];
    }
  }

  function Summarize(n: nat, sums: Sums, promo: Option<Verdict>): Summary {
    var total := if promo.Some? then promo.value.discounted else sums.total as real;
    var discount := sums.discount as real + if promo.Some? then promo.value.discount else 0.0;
    var advance := Round(total * ADVANCE);
    Summary(n, sums.base, sums.gst, sums.fee, discount, total, advance, total - advance as real)
  }

  function CartOf(s: Shop, user: UserId): seq<Item> {
    if user in s.carts then s.carts[user] else []
  }

  /** What viewCart shows of an item that has no snapshot. */
  function LockedPrice(i: Item): Breakdown {
    var advance := PartOf(i.lockedTotal, ADVANCE);
    Breakdown(if i.lockedBase != 0 then i.lockedBase else i.lockedTotal, 0, 0, 0, 0, 0, i.lockedTotal,
              advance, i.lockedTotal - advance)
  }

  function Shown(items: seq<Item>): (bs: seq<Breakdown>)
    ensures |bs| == |items|
  {
    seq(|items|, k requires 0 <= k < |items| =>
      if items[k].snapshot.Some? then items[k].snapshot.value else LockedPrice(items[k]))
  }

  /** What the cart costs before any promo. */
  function CartTotal(s: Shop, user: UserId): int {
    SumsOf(Shown(CartOf(s, user))).total
  }

  /** createOrder instead prices such an item again. */
  function Charged(items: seq<Item>, recalculated: map<ItemId, Breakdown>): (bs: seq<Breakdown>)
    ensures |bs| == |items|
  {
    seq(|items|, k requires 0 <= k < |items| =>
      if items[k].snapshot.Some? then items[k].snapshot.value
      else if items[k].id in recalculated then recalculated[items[k].id]
      else LockedPrice(items[k]))
  }

  /** viewCart: an invalid code is ignored, and so is any code on a cart that costs nothing. */
  function View(s: Shop, user: UserId, code: string, promoServiceUp: bool): Summary {
    var bs := Shown(CartOf(s, user));
    var verdict := Validate(s.offers, s.usage, code, user, SumsOf(bs).total as real);
    var applied := code != "" && SumsOf(bs).total > 0 && promoServiceUp && verdict.valid;
    Summarize(|bs|, SumsOf(bs), if applied then Some(verdict) else None)
  }

  // ---------------------------------------------------------------------------
  // The steps
  // ---------------------------------------------------------------------------

  function AddRefusal(s: Shop, user: UserId, vehicle: VehicleId, quote: Quote): Option<Error> {
    if !quote.known then Some(VehicleNotFound)
    else if !quote.active then Some(VehicleUnavailable(vehicle))
    else if !quote.inReach then Some(OutOfServiceArea)
    else if exists i <- CartOf(s, user) :: i.vehicle == vehicle then Some(AlreadyInCart)
    else if !quote.free then Some(VehicleUnavailable(vehicle))
    else None
  }

  function NewItem(id: ItemId, vehicle: VehicleId, quote: Quote): Item {
    var price := Price(quote.base, quote.rates, 0);
    Item(id, vehicle, price.base, price.total, Some(price))
  }

  function DoAdd(s: Shop, user: UserId, vehicle: VehicleId, quote: Quote): Outcome {
    var refusal := AddRefusal(s, user, vehicle, quote);
    if refusal.Some? then Outcome(s, refusal)
    else
      var items := CartOf(s, user) + [NewItem(s.nextItem, vehicle, quote)];
      Outcome(s.(carts := s.carts[user := items], nextItem := s.nextItem + 1), None)
  }

  function Without(items: seq<Item>, id: ItemId): (rest: seq<Item>)
    ensures forall i :: i in rest <==> i in items && i.id != id
  {
    if items == [] then []
    else Without(items[..|items| - 1], id) + if items[|items| - 1].id == id then [] else [items[|items| - 1]]
  }

  function DoRemove(s: Shop, user: UserId, id: ItemId): Outcome {
    if forall i <- CartOf(s, user) :: i.id != id then Outcome(s, Some(ItemNotFound))
    else Outcome(s.(carts := s.carts[user := Without(CartOf(s, user), id)]), None)
  }

  function DoClear(s: Shop, user: UserId): Shop {
    s.(carts := s.carts[user := []])
  }

  function FirstTaken(items: seq<Item>, taken: set<VehicleId>): (k: Option<nat>)
    ensures k.Some? ==> k.value < |items| && items[k.value].vehicle in taken
    ensures k.Some? ==> forall j | 0 <= j < k.value :: items[j].vehicle !in taken
    ensures k.None? ==> forall i <- items :: i.vehicle !in taken
  {
    if items == [] then None
    else if items[0].vehicle in taken then Some(0)
    else
      var k := FirstTaken(items[1..], taken);
      if k.Some? then Some(k.value + 1) else None
  }

  /** The promo verdict on a price, when a code is given. */
  function PromoOn(s: Shop, code: string, user: UserId, price: int, up: bool): Option<Verdict> {
    if code == "" then None
    else if !up then Some(Verdict(false, price as real, 0.0, ServiceUnavailable))
    else Some(Validate(s.offers, s.usage, code, user, price as real))
  }

  function NewOrder(user: UserId, code: string, bs: seq<Breakdown>, promo: Option<Verdict>): Order {
    var summary := Summarize(|bs|, SumsOf(bs), promo);
    Order(user, SumsOf(bs).total, if promo.Some? then promo.value.discount else 0.0, summary.total, summary.advance,
          code, summary, bs)
  }

  /** Applies the code, saves the order, records the use of the code and empties the cart. */
  function DoPlace(s: Shop, user: UserId, code: string, bs: seq<Breakdown>, io: PromoIO): Outcome {
    var promo := PromoOn(s, code, user, SumsOf(bs).total, io.validates);
    if promo.Some? && !promo.value.valid then Outcome(s, Some(InvalidPromo(promo.value.note)))
    else
      var order := NewOrder(user, code, bs, promo);
      var used :=
        if code != "" && order.discount > 0.0 && io.records then [Usage(user, code, |s.orders|, order.discount)]
        else [];
      Outcome(DoClear(s, user).(orders := s.orders + [order], usage := s.usage + used), None)
  }

  /** A vehicle that is no longer free is removed from the cart, and the order refused. */
  function DoCreate(
    s: Shop, user: UserId, code: string, taken: set<VehicleId>, recalculated: map<ItemId, Breakdown>, io: PromoIO):
    Outcome
  {
    var items := CartOf(s, user);
    var gone := FirstTaken(items, taken);
    if items == [] then Outcome(s, Some(EmptyCart))
    else if gone.Some? then
      Outcome(DoRemove(s, user, items[gone.value].id).next, Some(VehicleUnavailable(items[gone.value].vehicle)))
    else
      var bs := Charged(items, recalculated);
      DoPlace(s, user, code, bs, io)
  }

  function Do(s: Shop, e: Event): Outcome {
    match e
    case AddToCart(user, vehicle, quote) => DoAdd(s, user, vehicle, quote)
    case RemoveCartItem(user, item) => DoRemove(s, user, item)
    case ClearCart(user) => Outcome(DoClear(s, user), None)
    case CreateOrder(user, code, taken, recalculated, io) => DoCreate(s, user, code, taken, recalculated, io)
    case CreateOffer(form) =>
      if exists o <- s.offers :: o.code == form.code then Outcome(s, Some(DuplicateCode))
      else Outcome(s.(offers := s.offers + [NewOffer(form)]), None)
    case ToggleOffer(place, active) =>
      if place >= |s.offers| then Outcome(s, Some(OfferNotFound))
      else Outcome(s.(offers := s.offers[place := s.offers[place].(active := active)]), None)
  }

  ghost predicate IsRun(ws: seq<Shop>, es: seq<Event>) {
    && |ws| == |es| + 1
    && ws[0] == Shop(map[], 0, [], [], [])
    && forall i | 0 <= i < |es| :: ws[i + 1] == Do(ws[i], es[i]).next
  }

  // ---------------------------------------------------------------------------
  // What every reachable shop keeps
  // ---------------------------------------------------------------------------

  predicate WellPriced(b: Breakdown) {
    b.gst == 0 && b.discount == 0 && b.total == b.base + b.fee
  }

  predicate Locked(i: Item) {
    && i.snapshot.Some? && WellPriced(i.snapshot.value)
    && i.lockedBase == i.snapshot.value.base && i.lockedTotal == i.snapshot.value.total
  }

  /** Every item has its price locked, and no vehicle or id is in the cart twice. */
  predicate CartOk(items: seq<Item>, nextItem: ItemId) {
    && (forall i <- items :: Locked(i) && i.id < nextItem)
    && forall j, k | 0 <= j < k < |items| :: items[j].vehicle != items[k].vehicle && items[j].id != items[k].id
  }

  /** The order has well-formed prices and their sum as its original; without a code it costs that sum. */
  predicate OrderOk(o: Order) {
    && |o.prices| > 0 && (forall b <- o.prices :: WellPriced(b))
    && o.original == SumTotals(o.prices) && IsRounded(o.advance, 0.25 * o.total)
    && o.breakdown.vehicles == |o.prices| && o.breakdown.total == o.total && o.breakdown.advance == o.advance
    && (o.code == "" ==> o.discount == 0.0 && o.total == o.original as real)
  }

  ghost predicate ShopOk(s: Shop) {
    (forall u <- s.carts :: CartOk(s.carts[u], s.nextItem)) && forall o <- s.orders :: OrderOk(o)
  }

  lemma AddKeepsCart(items: seq<Item>, nextItem: ItemId, vehicle: VehicleId, quote: Quote)
    requires CartOk(items, nextItem) && forall i <- items :: i.vehicle != vehicle
    ensures CartOk(items + [NewItem(nextItem, vehicle, quote)], nextItem + 1)
  {
  }

  lemma {:induction false} WithoutKeepsCart(items: seq<Item>, nextItem: ItemId, id: ItemId)
    requires CartOk(items, nextItem)
    ensures CartOk(Without(items, id), nextItem)
  {
    if items != [] {
      var front, last := items[..|items| - 1], items[|items| - 1];
      assert CartOk(front, nextItem);
      WithoutKeepsCart(front, nextItem, id);
      forall i <- Without(front, id) ensures i.vehicle != last.vehicle && i.id != last.id {
        assert i in front;
      }
    }
  }

  lemma {:induction false} SumsAreTotals(bs: seq<Breakdown>)
    ensures SumsOf(bs).total == SumTotals(bs)
  {
    if bs != [] {
      SumsAreTotals(bs[..|bs| - 1]);
    }
  }

  lemma ChargedIsLocked(items: seq<Item>, nextItem: ItemId, recalculated: map<ItemId, Breakdown>)
    requires CartOk(items, nextItem)
    ensures Charged(items, recalculated) == Shown(items)
    ensures forall b <- Shown(items) :: WellPriced(b)
  {
  }

  lemma NewOrderOk(s: Shop, user: UserId, code: string, bs: seq<Breakdown>, up: bool)
    requires bs != [] && forall b <- bs :: WellPriced(b)
    ensures OrderOk(NewOrder(user, code, bs, PromoOn(s, code, user, SumsOf(bs).total, up)))
  {
  }

  lemma CreateKeepsOk(
    s: Shop, user: UserId, code: string, taken: set<VehicleId>, recalculated: map<ItemId, Breakdown>, io: PromoIO)
    requires ShopOk(s)
    ensures ShopOk(DoCreate(s, user, code, taken, recalculated, io).next)
  {
    var items := CartOf(s, user);
    var gone := FirstTaken(items, taken);
    if items != [] {
      if gone.Some? {
        WithoutKeepsCart(items, s.nextItem, items[gone.value].id);
      } else {
        ChargedIsLocked(items, s.nextItem, recalculated);
        NewOrderOk(s, user, code, Charged(items, recalculated), io.validates);
      }
    }
  }

  lemma StepKeepsOk(s: Shop, e: Event)
    requires ShopOk(s)
    ensures ShopOk(Do(s, e).next)
  {
    match e
    case AddToCart(user, vehicle, quote) =>
      if AddRefusal(s, user, vehicle, quote).None? { AddKeepsCart(CartOf(s, user), s.nextItem, vehicle, quote); }
    case RemoveCartItem(user, item) => WithoutKeepsCart(CartOf(s, user), s.nextItem, item);
    case CreateOrder(user, code, taken, recalculated, io) => CreateKeepsOk(s, user, code, taken, recalculated, io);
    case _ =>
  }

  lemma {:induction false} RunKeepsOk(ws: seq<Shop>, es: seq<Event>, n: nat)
    requires IsRun(ws, es) && n <= |es|
    ensures ShopOk(ws[n])
  {
    if n > 0 {
      RunKeepsOk(ws, es, n - 1);
      StepKeepsOk(ws[n - 1], es[n - 1]);
    }
  }

  // ---------------------------------------------------------------------------
  // An order charges what was quoted
  // ---------------------------------------------------------------------------

  /** The step is the accepted addition that makes this item of the user's cart. */
  predicate Adds(s: Shop, e: Event, user: UserId, i: Item) {
    && e.AddToCart? && e.user == user && e.vehicle == i.vehicle && Do(s, e).failure.None?
    && i == NewItem(s.nextItem, e.vehicle, e.quote)
  }

  ghost predicate Added(ws: seq<Shop>, es: seq<Event>, n: nat, user: UserId, i: Item)
    requires n <= |es| < |ws|
  {
    exists m :: 0 <= m < n && Adds(ws[m], es[m], user, i)
  }

  lemma ItemsStayOrAreAdded(s: Shop, e: Event, user: UserId, i: Item)
    requires i in CartOf(Do(s, e).next, user)
    ensures i in CartOf(s, user) || Adds(s, e, user, i)
  {
  }

  /** Every item of a cart is as the addition of its vehicle made it, with the price quoted then. */
  lemma {:induction false} ItemsWereAdded(ws: seq<Shop>, es: seq<Event>, n: nat, user: UserId, i: Item)
    requires IsRun(ws, es) && n <= |es| && i in CartOf(ws[n], user)
    ensures Added(ws, es, n, user, i)
  {
    if n > 0 {
      ItemsStayOrAreAdded(ws[n - 1], es[n - 1], user, i);
      if i in CartOf(ws[n - 1], user) {
        ItemsWereAdded(ws, es, n - 1, user, i);
      }
    }
  }

  /** The step takes this item out of the user's cart. */
  predicate TakesOut(s: Shop, e: Event, user: UserId, i: Item) {
    match e
    case RemoveCartItem(who, id) => who == user && id == i.id
    case ClearCart(who) => who == user
    case CreateOrder(who, _, taken, _, _) =>
      who == user && if i.vehicle in taken then IsFirstTaken(CartOf(s, user), taken, i) else Do(s, e).failure.None?
    case _ => false
  }

  predicate IsFirstTaken(items: seq<Item>, taken: set<VehicleId>, i: Item) {
    exists k :: 0 <= k < |items| && items[k] == i && forall j | 0 <= j < k :: items[j].vehicle !in taken
  }

  lemma OnlyFirstTaken(items: seq<Item>, taken: set<VehicleId>, i: Item, k: nat)
    requires k < |items| && items[k].vehicle in taken && forall j | 0 <= j < k :: items[j].vehicle !in taken
    requires i in items
    ensures i.vehicle in taken ==> (IsFirstTaken(items, taken, i) <==> i == items[k])
  {
    if i.vehicle in taken && IsFirstTaken(items, taken, i) {
      var m :| 0 <= m < |items| && items[m] == i && forall j | 0 <= j < m :: items[j].vehicle !in taken;
      assert m == k;
    }
  }

  lemma SameIdSameItem(items: seq<Item>, nextItem: ItemId, a: Item, b: Item)
    requires CartOk(items, nextItem) && a in items && b in items && a.id == b.id
    ensures a == b
  {
  }

  lemma RemovedIff(s: Shop, user: UserId, id: ItemId, i: Item)
    requires i in CartOf(s, user)
    ensures i in CartOf(DoRemove(s, user, id).next, user) <==> i.id != id
  {
  }

  lemma TakenIff(items: seq<Item>, nextItem: ItemId, taken: set<VehicleId>, i: Item, k: nat)
    requires CartOk(items, nextItem) && i in items && FirstTaken(items, taken) == Some(k)
    ensures i.id == items[k].id <==> i.vehicle in taken && IsFirstTaken(items, taken, i)
  {
    OnlyFirstTaken(items, taken, i, k);
    assert items[k] in items;
    if i.id == items[k].id {
      SameIdSameItem(items, nextItem, i, items[k]);
    }
  }

  lemma OrderTakesOutIff(s: Shop, e: Event, user: UserId, i: Item)
    requires ShopOk(s) && i in CartOf(s, user) && e.CreateOrder? && e.user == user
    ensures i in CartOf(Do(s, e).next, user) <==> !TakesOut(s, e, user, i)
  {
    var items := CartOf(s, user);
    var gone := FirstTaken(items, e.taken);
    if gone.Some? {
      TakenIff(items, s.nextItem, e.taken, i, gone.value);
      RemovedIff(s, user, items[gone.value].id, i);
      assert i.vehicle !in e.taken ==> Do(s, e).failure.Some?;
    }
  }

  lemma OthersLeaveTheCart(s: Shop, e: Event, user: UserId, i: Item)
    requires i in CartOf(s, user) && (e.CreateOrder? ==> e.user != user)
    ensures i in CartOf(Do(s, e).next, user) <==> !TakesOut(s, e, user, i)
  {
  }

  /** An item leaves the cart only with itself, with the whole cart, with an order, or as the first one found taken. */
  lemma ItemStaysIff(s: Shop, e: Event, user: UserId, i: Item)
    requires ShopOk(s) && i in CartOf(s, user)
    ensures i in CartOf(Do(s, e).next, user) <==> !TakesOut(s, e, user, i)
  {
    if e.CreateOrder? && e.user == user {
      OrderTakesOutIff(s, e, user, i);
    } else {
      OthersLeaveTheCart(s, e, user, i);
    }
  }

  /** Step m adds the item and no later one of the first n takes it out. */
  ghost predicate AddedAndKept(ws: seq<Shop>, es: seq<Event>, m: nat, n: nat, user: UserId, i: Item)
    requires n <= |es| < |ws|
  {
    m < n && Adds(ws[m], es[m], user, i) && forall k | m < k < n :: !TakesOut(ws[k], es[k], user, i)
  }

  lemma AddedIsIn(s: Shop, e: Event, user: UserId, i: Item)
    requires Adds(s, e, user, i)
    ensures i in CartOf(Do(s, e).next, user)
  {
  }

  ghost predicate InCartStep(ws: seq<Shop>, es: seq<Event>, k: nat, user: UserId, i: Item)
    requires k < |es| < |ws|
  {
    i in CartOf(ws[k + 1], user) <==>
      Adds(ws[k], es[k], user, i) || (i in CartOf(ws[k], user) && !TakesOut(ws[k], es[k], user, i))
  }

  lemma NextInCart(ws: seq<Shop>, es: seq<Event>, k: nat, user: UserId, i: Item)
    requires IsRun(ws, es) && k < |es|
    ensures InCartStep(ws, es, k, user, i)
  {
    RunKeepsOk(ws, es, k);
    if Adds(ws[k], es[k], user, i) {
      AddedIsIn(ws[k], es[k], user, i);
    } else if i in CartOf(ws[k], user) {
      ItemStaysIff(ws[k], es[k], user, i);
    } else if i in CartOf(ws[k + 1], user) {
      ItemsStayOrAreAdded(ws[k], es[k], user, i);
    }
  }

  ghost predicate AddedSince(ws: seq<Shop>, es: seq<Event>, n: nat, user: UserId, i: Item)
    requires n <= |es| < |ws|
  {
    exists m: nat :: AddedAndKept(ws, es, m, n, user, i)
  }

  lemma {:induction false} InCartByAdding(ws: seq<Shop>, es: seq<Event>, n: nat, user: UserId, i: Item)
    requires n <= |es| < |ws| && CartOf(ws[0], user) == []
    requires forall k | 0 <= k < n :: InCartStep(ws, es, k, user, i)
    ensures i in CartOf(ws[n], user) <==> AddedSince(ws, es, n, user, i)
  {
    if n > 0 {
      InCartByAdding(ws, es, n - 1, user, i);
      assert InCartStep(ws, es, n - 1, user, i);
      if Adds(ws[n - 1], es[n - 1], user, i) {
        assert AddedAndKept(ws, es, n - 1, n, user, i);
      } else if i in CartOf(ws[n], user) {
        var m: nat :| AddedAndKept(ws, es, m, n - 1, user, i);
        assert AddedAndKept(ws, es, m, n, user, i);
      } else if AddedSince(ws, es, n, user, i) {
        var m: nat :| AddedAndKept(ws, es, m, n, user, i);
        assert AddedAndKept(ws, es, m, n - 1, user, i);
      }
    }
  }

  /** Over all runs an item is in a cart exactly when it was added and nothing has taken it out since. */
  lemma InCartIff(ws: seq<Shop>, es: seq<Event>, n: nat, user: UserId, i: Item)
    requires IsRun(ws, es) && n <= |es|
    ensures i in CartOf(ws[n], user) <==> AddedSince(ws, es, n, user, i)
  {
    forall k | 0 <= k < n ensures InCartStep(ws, es, k, user, i) {
      NextInCart(ws, es, k, user, i);
    }
    InCartByAdding(ws, es, n, user, i);
  }

  /** The order a successful createOrder adds. */
  function Created(s: Shop, e: Event): Order
    requires e.CreateOrder? && Do(s, e).failure.None?
  {
    var next := Do(s, e).next;
    next.orders[|next.orders| - 1]
  }

  /** The vehicle was added for the user before, and this is the price of the quote it was added with. */
  ghost predicate Quoted(ws: seq<Shop>, es: seq<Event>, n: nat, user: UserId, vehicle: VehicleId, b: Breakdown)
    requires n <= |es| < |ws|
  {
    exists m :: 0 <= m < n && QuotesAt(ws[m], es[m], user, vehicle, b)
  }

  predicate QuotesAt(s: Shop, e: Event, user: UserId, vehicle: VehicleId, b: Breakdown) {
    && e.AddToCart? && e.user == user && e.vehicle == vehicle && Do(s, e).failure.None?
    && IsPriceOf(b, e.quote.base, e.quote.rates, 0)
  }

  lemma AddedIsQuoted(ws: seq<Shop>, es: seq<Event>, n: nat, user: UserId, i: Item)
    requires n <= |es| < |ws| && Added(ws, es, n, user, i)
    ensures i.snapshot.Some? && Quoted(ws, es, n, user, i.vehicle, i.snapshot.value)
  {
    var m :| 0 <= m < n && Adds(ws[m], es[m], user, i);
    var quote := es[m].quote;
    PriceIsMeant(Price(quote.base, quote.rates, 0), quote.base, quote.rates, 0);
    assert QuotesAt(ws[m], es[m], user, i.vehicle, i.snapshot.value);
  }

  /** Step j makes the order from the passenger's cart, and each price was quoted when its vehicle was added. */
  ghost predicate Charges(ws: seq<Shop>, es: seq<Event>, j: nat, o: Order)
    requires j < |es| < |ws|
  {
    var items := CartOf(ws[j], o.passenger);
    && es[j].CreateOrder? && es[j].user == o.passenger && Do(ws[j], es[j]).failure.None?
    && o == Created(ws[j], es[j]) && items != [] && |o.prices| == |items|
    && forall k | 0 <= k < |items| ::
         items[k].snapshot == Some(o.prices[k]) && Quoted(ws, es, j, o.passenger, items[k].vehicle, o.prices[k])
  }

  lemma OrdersStayOrAreCreated(s: Shop, e: Event, o: Order)
    requires o in Do(s, e).next.orders && o !in s.orders
    ensures e.CreateOrder? && Do(s, e).failure.None? && o == Created(s, e) && o.passenger == e.user
    ensures o.prices == Charged(CartOf(s, e.user), e.recalculated) && CartOf(s, e.user) != []
  {
  }

  lemma NewOrderCharges(ws: seq<Shop>, es: seq<Event>, j: nat, o: Order)
    requires IsRun(ws, es) && j < |es| && o in ws[j + 1].orders && o !in ws[j].orders
    ensures Charges(ws, es, j, o)
  {
    var items := CartOf(ws[j], es[j].user);
    OrdersStayOrAreCreated(ws[j], es[j], o);
    RunKeepsOk(ws, es, j);
    forall k | 0 <= k < |items|
      ensures items[k].snapshot == Some(o.prices[k])
      ensures Quoted(ws, es, j, o.passenger, items[k].vehicle, o.prices[k])
    {
      assert items[k] in items && Locked(items[k]);
      ItemsWereAdded(ws, es, j, o.passenger, items[k]);
      AddedIsQuoted(ws, es, j, o.passenger, items[k]);
    }
  }

  /**
   Every order of a reachable shop was made by one createOrder from its passenger's cart, and charges for
   each vehicle the price quoted when that vehicle was added, whatever has become of prices since.
   */
  lemma {:induction false} OrdersChargeTheQuotes(ws: seq<Shop>, es: seq<Event>, n: nat, o: Order)
    requires IsRun(ws, es) && n <= |es| && o in ws[n].orders
    ensures exists j :: 0 <= j < n && Charges(ws, es, j, o)
  {
    if n > 0 {
      if o in ws[n - 1].orders {
        OrdersChargeTheQuotes(ws, es, n - 1, o);
      } else {
        NewOrderCharges(ws, es, n - 1, o);
      }
    }
  }

  // ---------------------------------------------------------------------------
  // The order is what the cart showed
  // ---------------------------------------------------------------------------

  /** A flat offer of a negative value raises the price. */
  predicate RaisesPrice(o: Offer) {
    o.kind != "percentage" && o.value < 0.0
  }

  function OfferFor(s: Shop, code: string): Offer
    requires FindByCode(s.offers, code).Some?
  {
    FindByCode(s.offers, code).value
  }

  /**
   In every reachable shop, an order that is accepted has the figures the cart showed for the same code
   exactly if the code is empty, or the cart costs something, or it costs nothing, so that viewCart skips
   the code, and the offer does not raise the price.
   */
  lemma OrderMatchesCartIff(ws: seq<Shop>, es: seq<Event>, n: nat, e: Event)
    requires IsRun(ws, es) && n <= |es| && e.CreateOrder? && Do(ws[n], e).failure.None?
    ensures e.code == "" || FindByCode(ws[n].offers, e.code).Some?
    ensures
      var order, cart := Created(ws[n], e), View(ws[n], e.user, e.code, true);
      order.breakdown == cart <==>
      || e.code == ""
      || CartTotal(ws[n], e.user) > 0
      || (CartTotal(ws[n], e.user) == 0 && !RaisesPrice(OfferFor(ws[n], e.code)))
  {
    RunKeepsOk(ws, es, n);
    var s, items := ws[n], CartOf(ws[n], e.user);
    ChargedIsLocked(items, s.nextItem, e.recalculated);
    var bs := Shown(items);
    var promo := PromoOn(s, e.code, e.user, SumsOf(bs).total, e.io.validates);
    assert Created(s, e) == NewOrder(e.user, e.code, bs, promo);
    if e.code != "" && SumsOf(bs).total <= 0 {
      PromoOnNothing(OfferFor(s, e.code), SumsOf(bs).total);
      SummaryTells(|bs|, SumsOf(bs), promo.value);
    }
  }

  /** What a valid code makes of a price that is not positive. */
  lemma PromoOnNothing(o: Offer, price: int)
    requires price <= 0
    ensures Discounted(o, price as real) == price as real && Discount(o, price as real) == 0.0 <==>
            price == 0 && !RaisesPrice(o)
  {
  }

  /** A promo is invisible in the summary exactly when it changes neither the price nor the discount. */
  lemma SummaryTells(n: nat, sums: Sums, v: Verdict)
    ensures Summarize(n, sums, Some(v)) == Summarize(n, sums, None) <==>
            v.discounted == sums.total as real && v.discount == 0.0
  {
  }

  /** The base price rounds to a rupee or more, as calculatePricing's always does, and no fee is negative. */
  predicate Ordinary(e: Event) {
    e.AddToCart? ==>
      e.quote.base >= 0.5 && e.quote.rates.platform >= 0.0 && e.quote.rates.passengerShare >= 0.0
  }

  predicate CostsSomething(i: Item) {
    i.snapshot.Some? && i.snapshot.value.total >= 1
  }

  ghost predicate AllCostSomething(s: Shop) {
    forall u <- s.carts, i <- s.carts[u] :: CostsSomething(i)
  }

  lemma StepKeepsCosts(s: Shop, e: Event)
    requires AllCostSomething(s) && Ordinary(e)
    ensures AllCostSomething(Do(s, e).next)
  {
    if e.AddToCart? {
      PriceIsPositive(e.quote.base, e.quote.rates);
      assert CostsSomething(NewItem(s.nextItem, e.vehicle, e.quote));
    }
  }

  lemma {:induction false} RunKeepsCosts(ws: seq<Shop>, es: seq<Event>, n: nat)
    requires IsRun(ws, es) && n <= |es| && forall e <- es :: Ordinary(e)
    ensures AllCostSomething(ws[n])
  {
    if n > 0 {
      RunKeepsCosts(ws, es, n - 1);
      StepKeepsCosts(ws[n - 1], es[n - 1]);
    }
  }

  lemma {:induction false} PositiveSum(bs: seq<Breakdown>)
    requires forall b <- bs :: b.total >= 1
    ensures SumsOf(bs).total >= |bs|
  {
    if bs != [] {
      PositiveSum(bs[..|bs| - 1]);
      assert bs[|bs| - 1] in bs;
    }
  }

  /** So with the prices the service computes without negative fees, every accepted order is what the cart showed. */
  lemma OrderMatchesCart(ws: seq<Shop>, es: seq<Event>, n: nat, e: Event)
    requires IsRun(ws, es) && n <= |es| && forall e <- es :: Ordinary(e)
    requires e.CreateOrder? && Do(ws[n], e).failure.None?
    ensures Created(ws[n], e).breakdown == View(ws[n], e.user, e.code, true)
  {
    var items := CartOf(ws[n], e.user);
    RunKeepsCosts(ws, es, n);
    forall k | 0 <= k < |items| ensures Shown(items)[k].total >= 1 {
      assert items[k] in items && CostsSomething(items[k]);
    }
    PositiveSum(Shown(items));
    OrderMatchesCartIff(ws, es, n, e);
  }

  // ---------------------------------------------------------------------------
  // The figures add up
  // ---------------------------------------------------------------------------

  lemma {:induction false} SumsAddUp(bs: seq<Breakdown>)
    requires forall b <- bs :: WellPriced(b)
    ensures SumsOf(bs).gst == 0 && SumsOf(bs).discount == 0 && SumsOf(bs).total == SumsOf(bs).base + SumsOf(bs).fee
  {
    if bs != [] {
      SumsAddUp(bs[..|bs| - 1]);
      assert bs[|bs| - 1] in bs;
    }
  }

  predicate AddsUp(o: Order) {
    && (o.breakdown.base + o.breakdown.gst + o.breakdown.fee) as real - o.breakdown.discount == o.total
    && o.total + o.discount == SumTotals(o.prices) as real
  }

  /**
   Of every order accepted in a reachable shop: base + gst + fee - discount is the total, and total +
   promo discount is the sum of the vehicles' prices, exactly when there is no code, or its offer is
   flat, or its percentage does not round above the price.
   */
  lemma OrderAddsUpIff(ws: seq<Shop>, es: seq<Event>, n: nat, e: Event)
    requires IsRun(ws, es) && n <= |es| && e.CreateOrder? && Do(ws[n], e).failure.None?
    ensures e.code == "" || FindByCode(ws[n].offers, e.code).Some?
    ensures AddsUp(Created(ws[n], e)) <==>
            e.code == "" || SplitsPrice(OfferFor(ws[n], e.code), CartTotal(ws[n], e.user) as real)
  {
    RunKeepsOk(ws, es, n);
    var s, items := ws[n], CartOf(ws[n], e.user);
    ChargedIsLocked(items, s.nextItem, e.recalculated);
    var bs := Shown(items);
    SumsAddUp(bs);
    SumsAreTotals(bs);
    var promo := PromoOn(s, e.code, e.user, SumsOf(bs).total, e.io.validates);
    assert Created(s, e) == NewOrder(e.user, e.code, bs, promo);
    if e.code != "" {
      DiscountSplitsPriceIff(OfferFor(s, e.code), SumsOf(bs).total);
    }
  }

  // ---------------------------------------------------------------------------
  // Advance and balances
  // ---------------------------------------------------------------------------

  /** payBalance asks of vehicle k its price less an equal share of the order's advance. */
  function Remaining(o: Order, k: nat): real
    requires k < |o.prices|
  {
    o.prices[k].total as real - o.advance as real / |o.prices| as real
  }

  function RemainingUpTo(o: Order, n: nat): real
    requires n <= |o.prices|
  {
    if n == 0 then 0.0 else RemainingUpTo(o, n - 1) + Remaining(o, n - 1)
  }

  /** getOrderPaymentStatus. */
  function RemainingAmount(o: Order): real {
    o.total - o.advance as real
  }

  lemma {:induction false} RemainingSum(o: Order, n: nat)
    requires 0 < |o.prices| && n <= |o.prices|
    ensures RemainingUpTo(o, n) ==
            SumTotals(o.prices[..n]) as real - n as real * (o.advance as real / |o.prices| as real)
  {
    if n > 0 {
      RemainingSum(o, n - 1);
      assert o.prices[..n][..n - 1] == o.prices[..n - 1];
      OneShareMore((n - 1) as real, o.advance as real / |o.prices| as real);
    }
  }

  lemma OneShareMore(n: real, share: real)
    ensures n * share + share == (n + 1.0) * share
  {
  }

  /**
   The advance and the vehicles' balances together are the prices before any promo; so they are the
   order's total, and the balances the reported remaining amount, exactly when nothing was taken off.
   */
  lemma BalancesCoverTheOrderIff(ws: seq<Shop>, es: seq<Event>, n: nat, o: Order)
    requires IsRun(ws, es) && n <= |es| && o in ws[n].orders
    ensures o.advance as real + RemainingUpTo(o, |o.prices|) == o.original as real
    ensures RemainingUpTo(o, |o.prices|) == RemainingAmount(o) <==> o.total == o.original as real
    ensures o.code == "" ==> o.total == o.original as real
  {
    RunKeepsOk(ws, es, n);
    RemainingSum(o, |o.prices|);
    assert o.prices[..|o.prices|] == o.prices;
    ShareTimesCount(o.advance as real, |o.prices| as real);
  }

  lemma ShareTimesCount(a: real, n: real)
    requires n > 0.0
    ensures n * (a / n) == a
  {
  }

  /** Without a code, at the default percentage, the order's advance is near the sum of the vehicles' own. */
  lemma AdvanceNearVehicleAdvances(ws: seq<Shop>, es: seq<Event>, n: nat, o: Order)
    requires IsRun(ws, es) && n <= |es| && o in ws[n].orders && o.code == ""
    requires forall b <- o.prices :: b.advance == PartOf(b.total, ADVANCE)
    ensures -(|o.prices| + 1) <= 2 * (o.advance - SumAdvances(o.prices)) <= |o.prices| + 1
  {
    RunKeepsOk(ws, es, n);
    OrderAdvanceNearSum(o.prices);
  }

  // ---------------------------------------------------------------------------
  // First-booking codes
  // ---------------------------------------------------------------------------

  predicate IsDiscounted(o: Order) {
    o.code != "" && o.discount > 0.0
  }

  function CountDiscounted(orders: seq<Order>, user: UserId): nat {
    if orders == [] then 0
    else
      var o := orders[|orders| - 1];
      CountDiscounted(orders[..|orders| - 1], user) + if o.passenger == user && IsDiscounted(o) then 1 else 0
  }

  predicate Recorded(e: Event) {
    e.CreateOrder? ==> e.io.records
  }

  lemma OneMoreCounted(orders: seq<Order>, usage: seq<Usage>, o: Order, used: seq<Usage>, user: UserId)
    requires CountByUser(usage, user) == CountDiscounted(orders, user)
    requires used == if IsDiscounted(o) then [Usage(o.passenger, o.code, |orders|, o.discount)] else []
    ensures CountByUser(usage + used, user) == CountDiscounted(orders + [o], user)
  {
    assert (orders + [o])[..|orders|] == orders && usage + [] == usage;
    assert used != [] ==> (usage + used)[..|usage|] == usage;
  }

  /** A step leaves orders and usage as they are, or adds an order and, if it is discounted, its use. */
  lemma OrdersAndUsage(s: Shop, e: Event) returns (o: Order, used: seq<Usage>)
    requires Recorded(e) && Do(s, e).next.orders != s.orders
    ensures Do(s, e).next.orders == s.orders + [o] && Do(s, e).next.usage == s.usage + used
    ensures used == if IsDiscounted(o) then [Usage(o.passenger, o.code, |s.orders|, o.discount)] else []
  {
    o := Created(s, e);
    used := if IsDiscounted(o) then [Usage(o.passenger, o.code, |s.orders|, o.discount)] else [];
  }

  lemma StepKeepsCounts(s: Shop, e: Event, user: UserId)
    requires Recorded(e) && CountByUser(s.usage, user) == CountDiscounted(s.orders, user)
    ensures CountByUser(Do(s, e).next.usage, user) == CountDiscounted(Do(s, e).next.orders, user)
  {
    if Do(s, e).next.orders != s.orders {
      var o, used := OrdersAndUsage(s, e);
      OneMoreCounted(s.orders, s.usage, o, used, user);
    } else {
      NoOrderNoUsage(s, e);
    }
  }

  lemma NoOrderNoUsage(s: Shop, e: Event)
    requires Do(s, e).next.orders == s.orders
    ensures Do(s, e).next.usage == s.usage
  {
  }

  /** When every use is recorded, the usage history counts the user's discounted orders, and no others. */
  lemma {:induction false} UsageCountsDiscountedOrders(ws: seq<Shop>, es: seq<Event>, n: nat, user: UserId)
    requires IsRun(ws, es) && n <= |es| && forall e <- es :: Recorded(e)
    ensures CountByUser(ws[n].usage, user) == CountDiscounted(ws[n].orders, user)
  {
    if n > 0 {
      UsageCountsDiscountedOrders(ws, es, n - 1, user);
      StepKeepsCounts(ws[n - 1], es[n - 1], user);
    }
  }

  lemma {:induction false} CountedIffExists(orders: seq<Order>, user: UserId)
    ensures CountDiscounted(orders, user) > 0 <==> exists o <- orders :: o.passenger == user && IsDiscounted(o)
  {
    if orders != [] {
      var front, last := orders[..|orders| - 1], orders[|orders| - 1];
      CountedIffExists(front, user);
      assert forall o <- orders :: o == last || o in front;
      assert last in orders && forall o <- front :: o in orders;
    }
  }

  /**
   A code for first bookings, when active and its minimum met, is accepted exactly when the user has no
   discounted order: a second use never is, but bookings made without a code do not count.
   */
  lemma FirstBookingCodeIff(ws: seq<Shop>, es: seq<Event>, n: nat, code: string, user: UserId, price: real)
    requires IsRun(ws, es) && n <= |es| && forall e <- es :: Recorded(e)
    requires FindByCode(ws[n].offers, code).Some? && OfferFor(ws[n], code).firstOnly
    requires OfferFor(ws[n], code).active && price >= OfferFor(ws[n], code).minimum
    ensures Validate(ws[n].offers, ws[n].usage, code, user, price).valid <==>
            forall o <- ws[n].orders :: o.passenger == user ==> !IsDiscounted(o)
  {
    UsageCountsDiscountedOrders(ws, es, n, user);
    CountedIffExists(ws[n].orders, user);
  }

  // ---------------------------------------------------------------------------
  // Reachable orders that show the exceptions
  // ---------------------------------------------------------------------------

  lemma RunGoesOn(ws: seq<Shop>, es: seq<Event>, e: Event)
    requires IsRun(ws, es)
    ensures IsRun(ws + [Do(ws[|es|], e).next], es + [e])
  {
    LongerRun(ws, es, e, Do(ws[|es|], e).next);
  }

  lemma LongerRun(ws: seq<Shop>, es: seq<Event>, e: Event, s: Shop)
    requires IsRun(ws, es) && s == Do(ws[|es|], e).next
    ensures IsRun(ws + [s], es + [e])
  {
    var more, events := ws + [s], es + [e];
    forall i | 0 <= i < |events| ensures more[i + 1] == Do(more[i], events[i]).next {
      assert more[i] == ws[i];
      if i < |es| {
        assert more[i + 1] == ws[i + 1] && events[i] == es[i];
      }
    }
  }

  /** A good quote for a vehicle with this price. */
  function QuoteOf(base: real, rates: Rates): Quote {
    Quote(true, true, true, true, base, rates)
  }

  /** An offer, one vehicle in the cart, and an order with the offer's code. */
  lemma RunOfOneOrder(form: OfferForm, quote: Quote) returns (ws: seq<Shop>, es: seq<Event>)
    requires quote == QuoteOf(quote.base, quote.rates) && form.code != ""
    requires form.firstOnly.None? && form.minimum.None? && Price(quote.base, quote.rates, 0).total >= 0
    ensures IsRun(ws, es) && |es| == 3 && es[2].CreateOrder? && es[2].user == 7 && es[2].code == form.code
    ensures Do(ws[2], es[2]).failure.None? && ws[3] == Do(ws[2], es[2]).next && Created(ws[2], es[2]) in ws[3].orders
    ensures FindByCode(ws[2].offers, form.code) == Some(NewOffer(form))
    ensures CartTotal(ws[2], 7) == Price(quote.base, quote.rates, 0).total
    ensures
      var price, o := Price(quote.base, quote.rates, 0), NewOffer(form);
      var verdict := Verdict(true, Discounted(o, price.total as real), Discount(o, price.total as real), Applied);
      Created(ws[2], es[2]) == NewOrder(7, form.code, [price], Some(verdict))
  {
    var offer, add := CreateOffer(form), AddToCart(7, 1, quote);
    var order := CreateOrder(7, form.code, {}, map[], PromoIO(true, true));
    ws, es := [Shop(map[], 0, [], [], [])], [];
    RunGoesOn(ws, es, offer);
    ws, es := ws + [Do(ws[0], offer).next], es + [offer];
    RunGoesOn(ws, es, add);
    ws, es := ws + [Do(ws[1], add).next], es + [add];
    OneItemSums(ws[2], 0, quote);
    RunGoesOn(ws, es, order);
    ws, es := ws + [Do(ws[2], order).next], es + [order];
  }

  lemma OneItemSums(s: Shop, id: ItemId, quote: Quote)
    requires CartOf(s, 7) == [NewItem(id, 1, quote)]
    ensures
      var price := Price(quote.base, quote.rates, 0);
      && Shown(CartOf(s, 7)) == [price] && Charged(CartOf(s, 7), map[]) == [price]
      && SumsOf([price]) == Add(SumsOf([]), price)
  {
    var price := Price(quote.base, quote.rates, 0);
    assert [price][..0] == [];
  }

  /** The same for a vehicle of a thousand rupees without fees. */
  lemma RunOfAThousand(form: OfferForm) returns (ws: seq<Shop>, es: seq<Event>, price: Breakdown)
    requires form.code != "" && form.firstOnly.None? && form.minimum.None?
    ensures IsRun(ws, es) && |es| == 3 && es[2].CreateOrder? && es[2].user == 7 && es[2].code == form.code
    ensures Do(ws[2], es[2]).failure.None? && Created(ws[2], es[2]) in ws[3].orders
    ensures FindByCode(ws[2].offers, form.code) == Some(NewOffer(form))
    ensures price.total == 1000 && CartTotal(ws[2], 7) == 1000
    ensures
      var o := NewOffer(form);
      Created(ws[2], es[2]) ==
      NewOrder(7, form.code, [price], Some(Verdict(true, Discounted(o, 1000.0), Discount(o, 1000.0), Applied)))
  {
    var quote := QuoteOf(1000.0, Rates(0.0, 0.0, ADVANCE));
    price := Price(quote.base, quote.rates, 0);
    assert Round(1000.0) == 1000 && Round(0.0) == 0;
    ws, es := RunOfOneOrder(form, quote);
  }

  /** A thousand rupees and a flat hundred off: the balances exceed the reported remaining amount by the hundred. */
  lemma BalancesCanExceedTheRemainder() returns (ws: seq<Shop>, es: seq<Event>, o: Order)
    ensures IsRun(ws, es) && o in ws[|es|].orders && |o.prices| == 1
    ensures RemainingUpTo(o, 1) == RemainingAmount(o) + 100.0
  {
    var price: Breakdown;
    ws, es, price := RunOfAThousand(OfferForm("FLAT", "flat", 100.0, None, None));
    o := Created(ws[2], es[2]);
    assert [price][..0] == [];
    BalancesCoverTheOrderIff(ws, es, 3, o);
  }

  /** A thousand rupees at 200% off: the discount line alone is more than the price. */
  lemma OrderCanFailToAddUp() returns (ws: seq<Shop>, es: seq<Event>)
    ensures IsRun(ws, es) && |es| == 3 && es[2].CreateOrder? && Do(ws[2], es[2]).failure.None?
    ensures !AddsUp(Created(ws[2], es[2]))
  {
    var form := OfferForm("TWICE", "percentage", 200.0, None, None);
    var price: Breakdown;
    ws, es, price := RunOfAThousand(form);
    OrderAddsUpIff(ws, es, 2, es[2]);
    TwiceThePrice(NewOffer(form));
  }

  lemma TwiceThePrice(o: Offer)
    requires o.kind == "percentage" && o.value == 200.0
    ensures !SplitsPrice(o, 1000.0)
  {
    assert o.value / 100.0 == 2.0;
  }

  /** A platform fee configured to minus the price, and a flat offer that adds ten rupees. */
  lemma OrderCanDifferFromCart() returns (ws: seq<Shop>, es: seq<Event>)
    ensures IsRun(ws, es) && |es| == 3 && es[2].CreateOrder? && Do(ws[2], es[2]).failure.None?
    ensures Created(ws[2], es[2]).breakdown != View(ws[2], es[2].user, es[2].code, true)
  {
    var form, quote := OfferForm("PLUS", "flat", -10.0, None, None), QuoteOf(1000.0, Rates(-1.0, 1.0, ADVANCE));
    assert Round(1000.0) == 1000 && PartOf(1000, -1.0) == -1000 && PartOf(-1000, 1.0) == -1000;
    ws, es := RunOfOneOrder(form, quote);
    OrderMatchesCartIff(ws, es, 2, es[2]);
  }

  /** A booking of vehicle 1 by user 7: it is added to the cart and ordered. */
  lemma Books(ws: seq<Shop>, es: seq<Event>, code: string, quote: Quote) returns (ws': seq<Shop>, es': seq<Event>)
    requires IsRun(ws, es) && CartOf(ws[|es|], 7) == [] && quote == QuoteOf(quote.base, quote.rates)
    requires
      var s, total := ws[|es|], Price(quote.base, quote.rates, 0).total;
      code != "" ==> Validate(s.offers, s.usage, code, 7, total as real).valid
    ensures IsRun(ws', es') && |es'| == |es| + 2 && ws'[..|ws|] == ws && es'[..|es|] == es
    ensures es'[|es|] == AddToCart(7, 1, quote)
    ensures es'[|es| + 1] == CreateOrder(7, code, {}, map[], PromoIO(true, true))
    ensures Do(ws'[|es| + 1], es'[|es| + 1]).failure.None?
    ensures
      var s, after := ws[|es|], ws'[|es| + 2];
      && CartOf(after, 7) == [] && after.offers == s.offers && (code == "" ==> after.usage == s.usage)
      && |after.orders| == |s.orders| + 1 && after.orders[|s.orders|] == Created(ws'[|es| + 1], es'[|es| + 1])
      && after.orders[|s.orders|].passenger == 7 && after.orders[|s.orders|].code == code
  {
    var add, order := AddToCart(7, 1, quote), CreateOrder(7, code, {}, map[], PromoIO(true, true));
    RunGoesOn(ws, es, add);
    ws', es' := ws + [Do(ws[|es|], add).next], es + [add];
    OneItemSums(ws'[|es| + 1], ws[|es|].nextItem, quote);
    RunGoesOn(ws', es', order);
    ws', es' := ws' + [Do(ws'[|es| + 1], order).next], es' + [order];
  }

  /** A first-booking code accepted on a second booking: the first was made without a code. */
  lemma SecondBookingCanUseTheFirstBookingCode() returns (ws: seq<Shop>, es: seq<Event>)
    ensures IsRun(ws, es) && |es| == 5 && FindByCode(ws[4].offers, "FIRST").Some? && OfferFor(ws[4], "FIRST").firstOnly
    ensures |ws[4].orders| == 1 && ws[4].orders[0].passenger == 7 && ws[4].orders[0].code == ""
    ensures es[4].CreateOrder? && es[4].user == 7 && es[4].code == "FIRST" && Do(ws[4], es[4]).failure.None?
  {
    var offer := CreateOffer(OfferForm("FIRST", "flat", 100.0, Some(true), None));
    var quote := QuoteOf(1000.0, Rates(0.0, 0.0, ADVANCE));
    assert Round(1000.0) == 1000 && Round(0.0) == 0;
    ws, es := [Shop(map[], 0, [], [], [])], [];
    RunGoesOn(ws, es, offer);
    ws, es := ws + [Do(ws[0], offer).next], es + [offer];
    ws, es := Books(ws, es, "", quote);
    var s := ws[3];
    assert s.offers == [NewOffer(offer.form)] && s.usage == [];
    ws, es := Books(ws, es, "FIRST", quote);
    assert ws[3] == s;
  }
}
