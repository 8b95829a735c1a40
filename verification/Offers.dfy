/** Promo codes: when a code is valid, what it takes off, and which offers a user may use. */
module Offers {
  import opened Wrappers
  import opened Pricing
  import opened Text

  type UserId = nat

  /** `kind` is "percentage" or anything else, which means flat. */
  datatype Offer = Offer(code: string, kind: string, value: real, active: bool, firstOnly: bool, minimum: real)
  datatype Usage = Usage(user: UserId, code: string, order: nat, discount: real)

  /** What createOffer is given; a missing condition does not restrict. */
  datatype OfferForm = OfferForm(
    code: string, kind: string, value: real, firstOnly: Option<bool>, minimum: Option<real>)

  function NewOffer(f: OfferForm): Offer {
    Offer(f.code, f.kind, f.value, true, f.firstOnly.GetOr(false), f.minimum.GetOr(0.0))
  }

  datatype Note = Applied | UnknownCode | BelowMinimum(minimum: real) | NotFirstBooking | ServiceUnavailable
  datatype Verdict = Verdict(valid: bool, discounted: real, discount: real, note: Note)

  /** findByCode ignores case; the first match in table order. */
  function FindByCode(offers: seq<Offer>, code: string): (found: Option<Offer>)
    ensures found.Some? ==> found.value in offers && Lower(found.value.code) == Lower(code)
    ensures found.None? ==> forall o <- offers :: Lower(o.code) != Lower(code)
  {
    if offers == [] then None
    else if Lower(offers[0].code) == Lower(code) then Some(offers[0])
    else FindByCode(offers[1..], code)
  }

  function CountByUser(usage: seq<Usage>, user: UserId): nat {
    if usage == [] then 0
    else CountByUser(usage[..|usage| - 1], user) + if usage[|usage| - 1].user == user then 1 else 0
  }

  /** countByOfferCode ignores case. */
  function CountByCode(usage: seq<Usage>, code: string): nat {
    if usage == [] then 0
    else
      CountByCode(usage[..|usage| - 1], code) + if Lower(usage[|usage| - 1].code) == Lower(code) then 1 else 0
  }

  function Percent(price: real, value: real): real {
    price * (value / 100.0)
  }

  function Discount(o: Offer, price: real): real {
    if o.kind == "percentage" then Round(Percent(price, o.value)) as real
    else if o.value <= price then o.value
    else price
  }

  function Discounted(o: Offer, price: real): real {
    if price - Discount(o, price) > 0.0 then price - Discount(o, price) else 0.0
  }

  function Validate(offers: seq<Offer>, usage: seq<Usage>, code: string, user: UserId, price: real): Verdict {
    var found := FindByCode(offers, code);
    if found.None? || !found.value.active then Verdict(false, price, 0.0, UnknownCode)
    else if price < found.value.minimum then Verdict(false, price, 0.0, BelowMinimum(found.value.minimum))
    else if found.value.firstOnly && CountByUser(usage, user) > 0 then Verdict(false, price, 0.0, NotFirstBooking)
    else Verdict(true, Discounted(found.value, price), Discount(found.value, price), Applied)
  }

  /** The first offer in table order with these letters, whatever their case. */
  predicate Names(offers: seq<Offer>, code: string, o: Offer) {
    exists k :: 0 <= k < |offers| && offers[k] == o && SameLetters(o.code, code)
                && forall j | 0 <= j < k :: !SameLetters(offers[j].code, code)
  }

  lemma {:induction false} FoundIsNamed(offers: seq<Offer>, code: string)
    ensures forall o :: FindByCode(offers, code) == Some(o) <==> Names(offers, code, o)
  {
    if offers != [] {
      SameLettersIff(offers[0].code, code);
      FoundIsNamed(offers[1..], code);
      if Lower(offers[0].code) != Lower(code) {
        forall o ensures Names(offers, code, o) <==> Names(offers[1..], code, o) {
          NamedInTheRest(offers, code, o);
        }
      } else {
        forall o ensures Names(offers, code, o) <==> o == offers[0] {}
      }
    }
  }

  lemma NamedInTheRest(offers: seq<Offer>, code: string, o: Offer)
    requires offers != [] && !SameLetters(offers[0].code, code)
    ensures Names(offers, code, o) <==> Names(offers[1..], code, o)
  {
    var rest := offers[1..];
    assert forall j | 0 <= j < |rest| :: rest[j] == offers[j + 1];
    if Names(offers, code, o) {
      var k :| 0 <= k < |offers| && offers[k] == o && SameLetters(o.code, code)
        && forall j | 0 <= j < k :: !SameLetters(offers[j].code, code);
      assert k > 0 && rest[k - 1] == o;
    }
    if Names(rest, code, o) {
      var k :| 0 <= k < |rest| && rest[k] == o && SameLetters(o.code, code)
        && forall j | 0 <= j < k :: !SameLetters(rest[j].code, code);
      FirstOfAll(offers, code, k);
      assert offers[k + 1] == o;
    }
  }

  lemma FirstOfAll(offers: seq<Offer>, code: string, k: nat)
    requires offers != [] && !SameLetters(offers[0].code, code) && k < |offers[1..]|
    requires forall j | 0 <= j < k :: !SameLetters(offers[1..][j].code, code)
    ensures forall j | 0 <= j < k + 1 :: !SameLetters(offers[j].code, code)
  {
    forall j | 0 <= j < k + 1 ensures !SameLetters(offers[j].code, code) {
      assert j > 0 ==> offers[j] == offers[1..][j - 1];
    }
  }

  /** The uses of codes by the user. */
  function UsesOf(usage: seq<Usage>, user: UserId): set<nat> {
    set i | 0 <= i < |usage| && usage[i].user == user
  }

  /** The uses of a code, whatever the case of its letters. */
  function UsesOfCode(usage: seq<Usage>, code: string): set<nat> {
    set i | 0 <= i < |usage| && Lower(usage[i].code) == Lower(code)
  }

  lemma {:induction false} UsesAreCounted(usage: seq<Usage>, user: UserId)
    ensures CountByUser(usage, user) == |UsesOf(usage, user)|
  {
    if usage != [] {
      var n := |usage| - 1;
      UsesAreCounted(usage[..n], user);
      assert UsesOf(usage, user) == UsesOf(usage[..n], user) + if usage[n].user == user then {n} else {};
    }
  }

  lemma {:induction false} UsesOfCodeAreCounted(usage: seq<Usage>, code: string)
    ensures CountByCode(usage, code) == |UsesOfCode(usage, code)|
  {
    if usage != [] {
      var n := |usage| - 1;
      UsesOfCodeAreCounted(usage[..n], code);
      assert UsesOfCode(usage, code)
          == UsesOfCode(usage[..n], code) + if Lower(usage[n].code) == Lower(code) then {n} else {};
    }
  }

  /** What an offer makes of a price: a percentage in whole rupees, or a flat amount up to the price. */
  predicate TakesOff(o: Offer, price: real, discount: real, discounted: real) {
    && (o.kind == "percentage" ==>
          discount.Floor as real == discount && IsRounded(discount.Floor, price * o.value / 100.0))
    && (o.kind != "percentage" ==> discount == if o.value < price then o.value else price)
    && discounted == if discount < price then price - discount else 0.0
  }

  lemma PercentIs(price: real, value: real)
    ensures Percent(price, value) == price * value / 100.0
  {
  }

  /**
   A code is valid exactly when it names an active offer whose minimum the price meets and which, if it is
   for first bookings, finds no use of any code by the user; then it takes off what that offer says.
   */
  lemma ValidIff(offers: seq<Offer>, usage: seq<Usage>, code: string, user: UserId, price: real)
    ensures
      var verdict := Validate(offers, usage, code, user, price);
      && (verdict.valid <==>
          exists o :: Names(offers, code, o) && o.active && price >= o.minimum
                      && (o.firstOnly ==> UsesOf(usage, user) == {}))
      && (verdict.valid ==>
            forall o :: Names(offers, code, o) ==> TakesOff(o, price, verdict.discount, verdict.discounted))
      && (!verdict.valid ==> verdict.discount == 0.0 && verdict.discounted == price)
  {
    FoundIsNamed(offers, code);
    UsesAreCounted(usage, user);
    var found := FindByCode(offers, code);
    if found.Some? {
      PercentIs(price, found.value.value);
      assert Names(offers, code, found.value);
    }
  }

  /** What is paid and what is taken off make the price, unless a percentage rounds to more than the price. */
  predicate SplitsPrice(o: Offer, price: real) {
    o.kind == "percentage" ==> Percent(price, o.value) < price + 0.5
  }

  lemma ClippedSum(part: real, price: int, clipped: real)
    requires clipped == if price as real - Round(part) as real > 0.0 then price as real - Round(part) as real else 0.0
    ensures clipped + Round(part) as real == price as real <==> part < price as real + 0.5
  {
    RoundAtMost(part, price);
  }

  /**
   For a whole price the discount and the discounted price add up exactly when the offer is flat or its
   percentage does not round above the price: clipping at zero keeps the discount as computed.
   */
  lemma DiscountSplitsPriceIff(o: Offer, price: int)
    ensures Discounted(o, price as real) + Discount(o, price as real) == price as real <==>
            SplitsPrice(o, price as real)
  {
    if o.kind == "percentage" {
      ClippedSum(Percent(price as real, o.value), price, Discounted(o, price as real));
    }
  }

  lemma PercentBounds(price: real, value: real)
    requires price >= 0.0 && 0.0 <= value <= 100.0
    ensures 0.0 <= Percent(price, value) <= price
  {
  }

  /** Percentages from 0 to 100 and non-negative flat values: the price splits, and the discount is part of it. */
  lemma OrdinaryOffersSplit(o: Offer, price: int)
    requires price >= 0 && o.value >= 0.0 && (o.kind == "percentage" ==> o.value <= 100.0)
    ensures SplitsPrice(o, price as real)
    ensures 0.0 <= Discount(o, price as real) <= price as real
  {
    if o.kind == "percentage" {
      PercentBounds(price as real, o.value);
      RoundAtMost(Percent(price as real, o.value), 0);
      RoundAtMost(Percent(price as real, o.value), price);
    }
  }

  /** A percentage above 100 that breaks the sum: 200% of 100 takes off 200 and leaves 0. */
  lemma OverHundredPercent()
    ensures
      var o := Offer("X", "percentage", 200.0, true, false, 0.0);
      Discount(o, 100.0) == 200.0 && Discounted(o, 100.0) == 0.0
  {
  }

  predicate Eligible(o: Offer, count: nat, price: real) {
    price >= o.minimum && !(o.firstOnly && count > 0)
  }

  /** checkEligibility: the active offers the user could use now, in table order. */
  method CheckEligibility(offers: seq<Offer>, usage: seq<Usage>, user: UserId, price: real)
    returns (eligible: seq<Offer>)
    ensures forall o :: o in eligible <==> o in offers && o.active && Eligible(o, CountByUser(usage, user), price)
    ensures forall o <- eligible ::
              FindByCode(offers, o.code) == Some(o) ==> Validate(offers, usage, o.code, user, price).valid
  {
    eligible := [];
    var count := CountByUser(usage, user);
    for i := 0 to |offers|
      invariant forall o :: o in eligible <==> o in offers[..i] && o.active && Eligible(o, count, price)
    {
      assert offers[..i + 1] == offers[..i] + [offers[i]];
      if !offers[i].active || price < offers[i].minimum {
        continue;
      }
      if offers[i].firstOnly && count > 0 {
        continue;
      }
      eligible := eligible + [offers[i]];
    }
    assert offers[..|offers|] == offers;
  }

  /** An offer its own code finds is listed as eligible exactly when its code would be accepted. */
  lemma EligibleIffValid(offers: seq<Offer>, usage: seq<Usage>, o: Offer, user: UserId, price: real)
    requires FindByCode(offers, o.code) == Some(o)
    ensures o.active && Eligible(o, CountByUser(usage, user), price) <==>
            Validate(offers, usage, o.code, user, price).valid
  {
  }
}
