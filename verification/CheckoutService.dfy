/**
 The cart, order-creation and offer services as they run: carts, offers, usage records and orders are
 fields that the methods update, and sums are accumulated in loops. Every method is tied to a step of
 Checkout, so what is proved there over all runs holds of them.
 */
module CheckoutService {
  import opened Wrappers
  import opened Pricing
  import opened Offers
  import opened Checkout
  import opened Text

  /** The accumulating loop of viewCart and createOrder. */
  method AddUp(bs: seq<Breakdown>) returns (sums: Sums)
    ensures sums == SumsOf(bs) && sums.total == SumTotals(bs)
  {
    var base, gst, fee, discount, total := 0, 0, 0, 0, 0;
    for i := 0 to |bs|
      invariant Sums(base, gst, fee, discount, total) == SumsOf(bs[..i])
    {
      assert bs[..i + 1][..i] == bs[..i];
      base := base + bs[i].base;
      gst := gst + bs[i].gst;
      fee := fee + bs[i].fee;
      discount := discount + bs[i].discount;
      total := total + bs[i].total;
    }
    assert bs[..|bs|] == bs;
    SumsAreTotals(bs);
    sums := Sums(base, gst, fee, discount, total);
  }

  /** What payBalance reports: the amount paid, the wallet credit used and the vehicle's price. */
  datatype Payment = Payment(paid: real, wallet: real, price: int)

  /** The code names this offer, and it applies to the user and the price. */
  ghost predicate Applies(s: Shop, code: string, user: UserId, price: real, o: Offer) {
    Names(s.offers, code, o) && o.active && price >= o.minimum && (o.firstOnly ==> UsesOf(s.usage, user) == {})
  }

  ghost predicate CodeApplies(s: Shop, code: string, user: UserId, price: real) {
    exists o :: Applies(s, code, user, price, o)
  }

  /** The discount and the total are what the code's offer makes of the price. */
  ghost predicate Discounts(s: Shop, code: string, user: UserId, price: real, discount: real, total: real) {
    exists o :: Applies(s, code, user, price, o) && TakesOff(o, price, discount, total)
  }

  lemma ValidDiscounts(s: Shop, code: string, user: UserId, price: real)
    ensures
      var verdict := Validate(s.offers, s.usage, code, user, price);
      && (verdict.valid <==> CodeApplies(s, code, user, price))
      && (verdict.valid ==> Discounts(s, code, user, price, verdict.discount, verdict.discounted))
  {
    ValidIff(s.offers, s.usage, code, user, price);
    var verdict := Validate(s.offers, s.usage, code, user, price);
    if verdict.valid {
      var o :| Names(s.offers, code, o) && Applies(s, code, user, price, o);
      assert TakesOff(o, price, verdict.discount, verdict.discounted);
    }
  }

  /** The order is the user's, its original is the sum of its prices, and its code, if any, took off what it may. */
  ghost predicate IsOrderOf(o: Order, s: Shop, user: UserId, code: string) {
    && o.passenger == user && o.code == code && o.original == SumTotals(o.prices)
    && (code == "" ==> o.discount == 0.0 && o.total == o.original as real)
    && (code != "" ==> Discounts(s, code, user, o.original as real, o.discount, o.total))
    && IsRounded(o.advance, 0.25 * o.total)
  }

  /** One order more, its code used if it took something off, and the user's cart empty; all else as before. */
  ghost predicate Ordered(s: Shop, after: Shop, user: UserId, code: string, io: PromoIO) {
    && |after.orders| == |s.orders| + 1 && after.orders[..|s.orders|] == s.orders
    && var o := after.orders[|s.orders|];
       && IsOrderOf(o, s, user, code)
       && after.usage == s.usage + (if code != "" && o.discount > 0.0 && io.records
                                    then [Usage(user, code, |s.orders|, o.discount)] else [])
       && after.carts == s.carts[user := []] && after.nextItem == s.nextItem && after.offers == s.offers
  }

  /** What createOrder charges for the cart before any promo. */
  function ChargedTotal(s: Shop, user: UserId, recalculated: map<ItemId, Breakdown>): real {
    SumTotals(Charged(CartOf(s, user), recalculated)) as real
  }

  /** The cart holds something, every vehicle is still free, and the code, if any, applies. */
  ghost predicate MayOrder(
    s: Shop, user: UserId, code: string, taken: set<VehicleId>, recalculated: map<ItemId, Breakdown>, io: PromoIO)
  {
    && CartOf(s, user) != [] && (forall i <- CartOf(s, user) :: i.vehicle !in taken)
    && (code == "" || (io.validates && CodeApplies(s, code, user, ChargedTotal(s, user, recalculated))))
  }

  /** createOrder goes through exactly then, and adds the order the cart, the code and the user call for. */
  lemma CreatedIsOrdered(
    s: Shop, user: UserId, code: string, taken: set<VehicleId>, recalculated: map<ItemId, Breakdown>, io: PromoIO)
    ensures DoCreate(s, user, code, taken, recalculated, io).failure.None? <==>
            MayOrder(s, user, code, taken, recalculated, io)
    ensures DoCreate(s, user, code, taken, recalculated, io).failure.None? ==>
              Ordered(s, DoCreate(s, user, code, taken, recalculated, io).next, user, code, io)
  {
    var items := CartOf(s, user);
    var bs := Charged(items, recalculated);
    SumsAreTotals(bs);
    ValidDiscounts(s, code, user, SumsOf(bs).total as real);
    if items != [] && FirstTaken(items, taken).None? && DoPlace(s, user, code, bs, io).failure.None? {
      PlacedIsOrdered(s, user, code, bs, io);
    }
  }

  lemma PlacedIsOrdered(s: Shop, user: UserId, code: string, bs: seq<Breakdown>, io: PromoIO)
    requires DoPlace(s, user, code, bs, io).failure.None?
    ensures Ordered(s, DoPlace(s, user, code, bs, io).next, user, code, io)
  {
    SumsAreTotals(bs);
    ValidDiscounts(s, code, user, SumsOf(bs).total as real);
    assert IsOrderOf(NewOrder(user, code, bs, PromoOn(s, code, user, SumsOf(bs).total, io.validates)), s, user, code);
  }

  class Service {
    var carts: map<UserId, seq<Item>>
    var nextItem: ItemId
    var offers: seq<Offer>
    var usage: seq<Usage>
    var orders: seq<Order>

    function Now(): Shop
      reads this
    {
      Shop(carts, nextItem, offers, usage, orders)
    }

    constructor ()
      ensures Now() == Shop(map[], 0, [], [], [])
    {
      carts, nextItem, offers, usage, orders := map[], 0, [], [], [];
    }

    method AddToCart(user: UserId, vehicle: VehicleId, quote: Quote) returns (failure: Option<Error>)
      modifies this
      ensures failure.None? <==>
              && quote.known && quote.active && quote.inReach && quote.free
              && forall i <- CartOf(old(Now()), user) :: i.vehicle != vehicle
      ensures failure.Some? ==> Now() == old(Now())
      ensures failure.None? ==> exists b ::
                && IsPriceOf(b, quote.base, quote.rates, 0)
                && carts == old(carts)[user := CartOf(old(Now()), user)
                                               + [Item(old(nextItem), vehicle, b.base, b.total, Some(b))]]
                && Now() == old(Now()).(carts := carts, nextItem := old(nextItem) + 1)
      ensures Outcome(Now(), failure) == Do(old(Now()), Event.AddToCart(user, vehicle, quote))
    {
      if !quote.known { return Some(VehicleNotFound); }
      if !quote.active { return Some(VehicleUnavailable(vehicle)); }
      if !quote.inReach { return Some(OutOfServiceArea); }
      var items := CartOf(Now(), user);
      if exists i <- items :: i.vehicle == vehicle { return Some(AlreadyInCart); }
      if !quote.free { return Some(VehicleUnavailable(vehicle)); }
      var pricing := Price(quote.base, quote.rates, 0);
      PriceIsMeant(pricing, quote.base, quote.rates, 0);
      var item := Item(nextItem, vehicle, pricing.base, pricing.total, Some(pricing));
      carts := carts[user := items + [item]];
      nextItem := nextItem + 1;
      failure := None;
    }

    /** The prices of the items, snapshots first. */
    method PricesOf(items: seq<Item>) returns (bs: seq<Breakdown>)
      ensures bs == Shown(items)
    {
      bs := [];
      for i := 0 to |items|
        invariant |bs| == i && forall k | 0 <= k < i :: bs[k] == Shown(items)[k]
      {
        bs := bs + [if items[i].snapshot.Some? then items[i].snapshot.value else LockedPrice(items[i])];
      }
    }

    method ViewCart(user: UserId, code: string, promoServiceUp: bool) returns (summary: Summary)
      ensures
        var bs, sums := Shown(CartOf(Now(), user)), SumsOf(Shown(CartOf(Now(), user)));
        var price, promo := sums.total as real, summary.discount - sums.discount as real;
        && summary.vehicles == |bs| && summary.base == sums.base && summary.gst == sums.gst && summary.fee == sums.fee
        && (if code != "" && sums.total > 0 && promoServiceUp && CodeApplies(Now(), code, user, price)
            then Discounts(Now(), code, user, price, promo, summary.total)
            else promo == 0.0 && summary.total == price)
        && IsRounded(summary.advance, 0.25 * summary.total)
        && summary.advance as real + summary.balance == summary.total
      ensures summary == View(Now(), user, code, promoServiceUp)
    {
      var bs := PricesOf(CartOf(Now(), user));
      var sums := AddUp(bs);
      var discount, total := sums.discount as real, sums.total as real;
      if code != "" && sums.total > 0 && promoServiceUp {
        var verdict := Validate(offers, usage, code, user, total);
        ValidDiscounts(Now(), code, user, total);
        if verdict.valid {
          discount := discount + verdict.discount;
          total := verdict.discounted;
        }
      }
      var advance := Round(total * ADVANCE);
      summary := Summary(|bs|, sums.base, sums.gst, sums.fee, discount, total, advance, total - advance as real);
    }

    /** Also returns the figures of the cart that is left. */
    method RemoveCartItem(user: UserId, id: ItemId) returns (r: Result<Summary, Error>)
      modifies this
      ensures Outcome(Now(), if r.Ok? then None else Some(r.error)) == Do(old(Now()), Event.RemoveCartItem(user, id))
      ensures r.Ok? <==> exists i <- CartOf(old(Now()), user) :: i.id == id
      ensures Now() == old(Now()).(carts := carts)
      ensures if r.Err? then carts == old(carts) else
                && carts == old(carts)[user := CartOf(Now(), user)]
                && forall i :: i in CartOf(Now(), user) <==> i in CartOf(old(Now()), user) && i.id != id
      ensures r.Ok? ==> r.value == View(Now(), user, "", true) && r.value.vehicles == |CartOf(Now(), user)|
    {
      var items := CartOf(Now(), user);
      if forall i <- items :: i.id != id { return Err(ItemNotFound); }
      carts := carts[user := Without(items, id)];
      var summary := ViewCart(user, "", true);
      r := Ok(summary);
    }

    method ClearCart(user: UserId) returns (removed: nat)
      modifies this
      ensures Now() == old(Now()).(carts := old(carts)[user := []])
      ensures removed == |CartOf(old(Now()), user)|
    {
      removed := |CartOf(Now(), user)|;
      carts := carts[user := []];
    }

    /** The availability loop: the first item whose vehicle is no longer free. */
    method FindTaken(items: seq<Item>, taken: set<VehicleId>) returns (k: Option<nat>)
      ensures k == FirstTaken(items, taken)
    {
      k := None;
      for i := 0 to |items|
        invariant forall j | 0 <= j < i :: items[j].vehicle !in taken
        invariant FirstTaken(items, taken) == ShiftBy(FirstTaken(items[i..], taken), i)
      {
        if items[i].vehicle in taken {
          return Some(i);
        }
        assert items[i..][1..] == items[i + 1..];
      }
    }

    /** A vehicle that is no longer free goes out of the cart. */
    method DropTaken(user: UserId, i: Item)
      modifies this
      ensures Now() == DoRemove(old(Now()), user, i.id).next
    {
      var ignored := RemoveCartItem(user, i.id);
    }

    /** The first loop of createOrder: each vehicle's price, and their running sum. */
    method ChargesOf(items: seq<Item>, recalculated: map<ItemId, Breakdown>)
      returns (prices: seq<Breakdown>, original: int)
      ensures prices == Charged(items, recalculated) && original == SumTotals(prices)
    {
      prices, original := [], 0;
      for i := 0 to |items|
        invariant |prices| == i && forall k | 0 <= k < i :: prices[k] == Charged(items, recalculated)[k]
        invariant original == SumTotals(prices)
      {
        var pricing := if items[i].snapshot.Some? then items[i].snapshot.value
                       else if items[i].id in recalculated then recalculated[items[i].id]
                       else LockedPrice(items[i]);
        original := original + pricing.total;
        assert (prices + [pricing])[..i] == prices;
        prices := prices + [pricing];
      }
    }

    /** Saves the order, records the use of its code, and empties the cart. */
    method Store(order: Order, io: PromoIO)
      modifies this
      ensures orders == old(orders) + [order] && offers == old(offers) && nextItem == old(nextItem)
      ensures carts == old(carts)[order.passenger := []]
      ensures usage == old(usage) + if order.code != "" && order.discount > 0.0 && io.records
                                    then [Usage(order.passenger, order.code, |old(orders)|, order.discount)] else []
    {
      orders := orders + [order];
      if order.code != "" && order.discount > 0.0 && io.records {
        usage := usage + [Usage(order.passenger, order.code, |orders| - 1, order.discount)];
      }
      var removed := ClearCart(order.passenger);
    }

    method PlaceOrder(user: UserId, code: string, prices: seq<Breakdown>, original: int, io: PromoIO)
      returns (failure: Option<Error>)
      requires original == SumTotals(prices)
      modifies this
      ensures Outcome(Now(), failure) == DoPlace(old(Now()), user, code, prices, io)
    {
      var sums := AddUp(prices);
      var discount, promo, total := sums.discount as real, 0.0, sums.total as real;
      if code != "" {
        if !io.validates { return Some(InvalidPromo(ServiceUnavailable)); }
        var verdict := Validate(offers, usage, code, user, total);
        if !verdict.valid { return Some(InvalidPromo(verdict.note)); }
        promo := verdict.discount;
        discount := discount + promo;
        total := verdict.discounted;
      }
      var advance := Round(total * ADVANCE);
      var balance := total - advance as real;
      var breakdown := Summary(|prices|, sums.base, sums.gst, sums.fee, discount, total, advance, balance);
      Store(Order(user, original, promo, total, advance, code, breakdown, prices), io);
      failure := None;
    }

    method CreateOrder(
      user: UserId, code: string, taken: set<VehicleId>, recalculated: map<ItemId, Breakdown>, io: PromoIO)
      returns (failure: Option<Error>)
      modifies this
      ensures Outcome(Now(), failure) == Do(old(Now()), Event.CreateOrder(user, code, taken, recalculated, io))
    {
      var items := CartOf(Now(), user);
      if items == [] { return Some(EmptyCart); }
      var gone := FindTaken(items, taken);
      if gone.Some? {
        DropTaken(user, items[gone.value]);
        return Some(VehicleUnavailable(items[gone.value].vehicle));
      }
      var prices, original := ChargesOf(items, recalculated);
      failure := PlaceOrder(user, code, prices, original, io);
    }

    method CreateOffer(form: OfferForm) returns (failure: Option<Error>)
      modifies this
      ensures failure.Some? <==> exists o <- old(offers) :: o.code == form.code
      ensures Now() == old(Now()).(offers := offers)
      ensures offers == old(offers) + if failure.Some? then [] else
                [Offer(form.code, form.kind, form.value, true, form.firstOnly == Some(true), form.minimum.GetOr(0.0))]
      ensures Outcome(Now(), failure) == Do(old(Now()), Event.CreateOffer(form))
    {
      if exists o <- offers :: o.code == form.code { return Some(DuplicateCode); }
      var offer := Offer(form.code, form.kind, form.value, true, false, 0.0);
      if form.firstOnly.Some? {
        offer := offer.(firstOnly := form.firstOnly.value);
      }
      if form.minimum.Some? {
        offer := offer.(minimum := form.minimum.value);
      }
      offers := offers + [offer];
      failure := None;
    }

    /** Also returns how often the code was used. */
    method ToggleOffer(place: nat, active: bool) returns (r: Result<nat, Error>)
      modifies this
      ensures Outcome(Now(), if r.Ok? then None else Some(r.error)) == Do(old(Now()), Event.ToggleOffer(place, active))
      ensures r.Ok? <==> place < |old(offers)|
      ensures Now() == old(Now()).(offers := offers)
      ensures offers == if r.Err? then old(offers)
                        else old(offers)[place := old(offers)[place].(active := active)]
      ensures r.Ok? ==> r.value == |UsesOfCode(usage, offers[place].code)|
    {
      if place >= |offers| { return Err(OfferNotFound); }
      offers := offers[place := offers[place].(active := active)];
      var count := CountOf(offers[place].code);
      UsesOfCodeAreCounted(usage, offers[place].code);
      r := Ok(count);
    }

    method CountOf(code: string) returns (count: nat)
      ensures count == CountByCode(usage, code)
    {
      count := 0;
      for i := 0 to |usage|
        invariant count == CountByCode(usage[..i], code)
      {
        assert usage[..i + 1][..i] == usage[..i];
        if Lower(usage[i].code) == Lower(code) {
          count := count + 1;
        }
      }
      assert usage[..|usage|] == usage;
    }

    /**
     The amounts of payBalance for vehicle k of an order: what is paid and what comes from the wallet are
     together what remains of the vehicle's price. No credit amount means all of it.
     */
    method PayBalance(order: nat, passenger: UserId, k: nat, useWallet: bool, credit: real)
      returns (r: Result<Payment, Error>)
      ensures r == Err(OrderNotFound) <==> order >= |orders| || orders[order].passenger != passenger
      ensures r.Err? && r.error != OrderNotFound ==> r.error == VehicleNotFound
      ensures r == Err(VehicleNotFound) ==> k >= |orders[order].prices|
      ensures r.Ok? ==>
                && k < |orders[order].prices| && r.value.price == orders[order].prices[k].total
                && r.value.paid + r.value.wallet == Remaining(orders[order], k)
                && r.value.wallet == if !useWallet then 0.0
                                     else if credit != 0.0 then credit
                                     else Remaining(orders[order], k)
    {
      if order >= |orders| || orders[order].passenger != passenger { return Err(OrderNotFound); }
      var o := orders[order];
      if k >= |o.prices| { return Err(VehicleNotFound); }
      var advancePaid := o.advance as real / |o.prices| as real;
      var remaining := o.prices[k].total as real - advancePaid;
      var wallet := 0.0;
      if useWallet {
        wallet := if credit != 0.0 then credit else remaining;
      }
      r := Ok(Payment(remaining - wallet, wallet, o.prices[k].total));
    }
  }

  function ShiftBy(k: Option<nat>, n: nat): Option<nat> {
    if k.Some? then Some(k.value + n) else None
  }
}
