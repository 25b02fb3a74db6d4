/** The bazaar's listing and buying rules (c_reg and c_buy,
    BasicPacketHandler.cs:268-340 and 402-480): the tax on a listing, its
    guards and duration table, and the guards and price of a purchase.
    Prices are 64-bit in the server; the model uses unbounded integers. */
module Bazaar {
  import opened Wrappers

  // ---------------------------------------------------------------------
  // Listing tax (:407-410)

  /** The tax without a bazaar medal: half a percent above 100000, else 500. */
  function TaxWithoutMedal(price: int): (tax: int)
    ensures tax >= 500
    ensures price <= 100000 ==> tax == 500
    ensures price > 100000 ==> tax * 200 <= price < (tax + 1) * 200
  {
    if price > 100000 then price / 200 else 500
  }

  /** The tax with a medal: 50 below 4000, then 60 plus 30 per full 2000
      above 4000, never more than 10000. */
  function TaxWithMedal(price: int): (tax: int)
    ensures 50 <= tax <= 10000
    ensures price < 4000 ==> tax == 50
    ensures price >= 4000 ==> tax >= 60 && ((tax - 60) % 30 == 0 || tax == 10000)
  {
    if price >= 4000 then
      var stepped := 60 + (price - 4000) / 2000 * 30;
      if stepped > 10000 then 10000 else stepped
    else 50
  }

  function Tax(price: int, medal: bool): (tax: int)
  {
    if medal then TaxWithMedal(price) else TaxWithoutMedal(price)
  }

  /** A dearer listing never pays less tax, with or without a medal. */
  lemma TaxMonotonic(p1: int, p2: int, medal: bool)
    requires p1 <= p2
    ensures Tax(p1, medal) <= Tax(p2, medal)
  {
    if medal {
      if p1 >= 4000 {
        DivMonotonic(p1 - 4000, p2 - 4000, 2000);
      }
    } else if p1 > 100000 {
      DivMonotonic(p1, p2, 200);
    }
  }

  lemma DivMonotonic(a: int, b: int, d: int)
    requires 0 <= a <= b && d > 0
    ensures a / d <= b / d
  {
    var qa, qb := a / d, b / d;
    assert b < (qb + 1) * d;
    if qa > qb {
      MulMonotonic(qb + 1, qa, d);
      assert false;
    }
  }

  lemma MulMonotonic(x: int, y: int, d: nat)
    requires x <= y
    ensures x * d <= y * d
  {
  }

  /** The medal tax reaches its cap of 10000 from a price of 668000 on. */
  lemma MedalTaxCap(price: int)
    ensures price >= 668000 <==> TaxWithMedal(price) == 10000
  {
    if price >= 668000 {
      DivMonotonic(664000, price - 4000, 2000);
    } else if price >= 4000 {
      DivMonotonic(price - 4000, 663999, 2000);
    }
  }

  // ---------------------------------------------------------------------
  // Listing guards (:411-452)

  /** Hours a listing lasts for each durability choice. */
  function DurationHours(durability: int): (hours: Option<int>)
    ensures hours.Some? <==> 1 <= durability <= 4
    ensures hours.Some? ==> hours.value % 24 == 0 && 24 <= hours.value <= 720
  {
    if durability == 1 then Some(24)
    else if durability == 2 then Some(168)
    else if durability == 3 then Some(360)
    else if durability == 4 then Some(720)
    else None
  }

  /** The c_reg request. */
  datatype SellRequest = SellRequest(unitPrice: int, amount: int, durability: int, isPackage: bool)

  /** What the seller's side contributes: gold, medal, trade state, and the
      answers of the inventory (is the item in the slot sellable, how many
      items already sit in the bazaar inventory, did moving the item work). */
  datatype Seller = Seller(gold: int, medal: bool, exchangeHasItems: bool, isShopping: bool,
                           itemSellable: bool, bazaarCount: int, moved: bool)

  datatype SellOutcome =
    | Ignored              // silently refused, nothing changes
    | LimitExceeded        // LIMIT_EXCEEDED
    | PriceExceeded        // PRICE_EXCEEDED
    | MovedWithoutListing  // item already moved to the bazaar inventory, then an unknown durability
    | Listed(tax: int, hours: int)

  function ListingLimit(medal: bool): int
  {
    10 * (if medal then 10 else 1)
  }

  function PriceCeiling(medal: bool): int
  {
    if medal then 1000000000 else 1000000
  }

  function Sell(req: SellRequest, s: Seller): (r: SellOutcome)
  {
    var price := req.unitPrice * req.amount;
    var tax := Tax(price, s.medal);
    if s.gold < tax || req.amount <= 0 || s.exchangeHasItems || s.isShopping then Ignored
    else if !s.itemSellable then Ignored
    else if s.bazaarCount > ListingLimit(s.medal) then LimitExceeded
    else if price >= PriceCeiling(s.medal) then PriceExceeded
    else if !s.moved then Ignored
    else match DurationHours(req.durability)
      case None => MovedWithoutListing
      case Some(h) => Listed(tax, h)
  }

  /** A listing is made exactly when every guard passes; it then charges
      the tax of the total price, which the seller can afford. */
  lemma SellListedExactly(req: SellRequest, s: Seller)
    ensures Sell(req, s).Listed? <==>
      && s.gold >= Tax(req.unitPrice * req.amount, s.medal)
      && req.amount > 0 && !s.exchangeHasItems && !s.isShopping
      && s.itemSellable && s.moved
      && s.bazaarCount <= ListingLimit(s.medal)
      && req.unitPrice * req.amount < PriceCeiling(s.medal)
      && 1 <= req.durability <= 4
    ensures Sell(req, s).Listed? ==>
      && Sell(req, s).tax == Tax(req.unitPrice * req.amount, s.medal)
      && 0 < Sell(req, s).tax <= s.gold
      && Some(Sell(req, s).hours) == DurationHours(req.durability)
  {
  }

  /** The durability is checked only after the item moved to the bazaar
      inventory: an unknown durability leaves it there unlisted. */
  lemma DurabilityCheckedLate(req: SellRequest, s: Seller)
    requires Sell(req, s) == MovedWithoutListing
    ensures s.moved && !(1 <= req.durability <= 4)
  {
  }

  /** The cheapest listing that can be refused only for its price: the
      ceiling of a seller without medal is one million. */
  lemma CeilingBites()
    ensures Sell(SellRequest(1000000, 1, 1, false),
                 Seller(10000, false, false, false, true, 0, true)) == PriceExceeded
    ensures Sell(SellRequest(999999, 1, 1, false),
                 Seller(10000, false, false, false, true, 0, true)) == Listed(4999, 24)
  {
  }

  // ---------------------------------------------------------------------
  // Buying (:268-340)

  /** A listing as the bazaar stores it, with the stock left in its item. */
  datatype Listing = Listing(unitPrice: int, listedAmount: int, isPackage: bool, stock: int)

  datatype BuyOutcome =
    | StateChanged        // STATE_CHANGED modal
    | NotEnoughMoney      // NOT_ENOUGH_MONEY
    | SellerGone          // the seller's record is missing: the handler faults, nothing changes
    | NotEnoughPlace      // NOT_ENOUGH_PLACE
    | PackageSplit        // a package bought partly: silently refused
    | Bought(price: int)

  function Buy(listing: Option<Listing>, amount: int, gold: int, sellerExists: bool, canAdd: bool): (r: BuyOutcome)
  {
    match listing
    case None => StateChanged
    case Some(l) =>
      if amount <= 0 then StateChanged
      else
        var price := amount * l.unitPrice;
        if gold < price then NotEnoughMoney
        else if !sellerExists then SellerGone
        else if amount > l.stock then StateChanged
        else if !canAdd then NotEnoughPlace
        else if l.isPackage && amount != l.listedAmount then PackageSplit
        else Bought(price)
  }

  /** A purchase goes through exactly when the listing exists, the amount is
      positive, in stock, affordable, fits the inventory and takes a
      package whole; it costs amount times the unit price. */
  lemma BuyExactly(listing: Option<Listing>, amount: int, gold: int, sellerExists: bool, canAdd: bool)
    ensures Buy(listing, amount, gold, sellerExists, canAdd).Bought? <==>
      && listing.Some? && 0 < amount <= listing.value.stock
      && amount * listing.value.unitPrice <= gold
      && sellerExists && canAdd
      && (listing.value.isPackage ==> amount == listing.value.listedAmount)
    ensures Buy(listing, amount, gold, sellerExists, canAdd).Bought? ==>
      Buy(listing, amount, gold, sellerExists, canAdd).price == amount * listing.value.unitPrice
  {
  }
}
